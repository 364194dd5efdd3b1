# MikroTik address-list script output, in Dafny

This project models the `mikrotikGeoIPScript` output converter of the geoip
tool. The converter turns a container of named IP entries into a MikroTik
RouterOS script (`.rsc`). The script logs a message, removes the old address
list, enters the address-list menu and then adds one `:do { add address=<cidr>
list=<name> } on-error={}` line per CIDR range. The model covers:

- **Configuration defaulting** (`MikrotikConfig`). `newMikrotikScript` runs on
  an already-decoded configuration record. Empty output name, output directory
  and address-list name take their defaults (`mikrotik-acl.rsc`,
  `output/mikrotik`, `CN`). The overwrite list is never set.
- **Entry selection** (`MikrotikSelect`). `getEntryNameListInOrder` has three
  loops and a lookup map. They are modelled as a method proved equal to the
  specification function `EntryNameOrder`. The lemmas about that function give
  the ordering, membership and multiplicity rules: the wanted list wins;
  otherwise the container names outside the overwrite list come in enumeration
  order, followed by the overwrite list.
- **Rendering** (`MikrotikRender`). `addMikrotikScriptPrefix` and `marshalData`
  are methods that build the text. Each is proved equal to a function. A small
  parser (`ParseLines`) reads the add lines back, and lemmas show that it
  recovers exactly the CIDRs of the configured address family.

  As written, the log statement and the remove command share one line: no
  newline separates them. `PreambleFirstLine` states this.
- **The output driver** (`MikrotikOutput`). `Output` has two halves:
  - `BuildBuffer` is the rendering loop, proved against `Body`;
  - the write step runs against a `FileSystem` object that logs every
    completed write and fails for a given set of file names.

  The `updated` flag is forced to true before it is tested, so the "failed to
  write file" error is unreachable. `Output`'s contract proves this.

Strings are Dafny strings (`seq<char>`), and the Go byte buffers are modelled by
them too. `strings.TrimSpace`, `strings.ToUpper` and `strings.ToLower` are
modelled for ASCII only (`Ascii`).

The `lib` package is not part of this model. Its entry, container and
`MarshalText` are given abstract definitions (`Lib`):
- an entry carries its CIDR ranges already tagged with their family, and an
  optional marshalling fault;
- a container is a sequence in enumeration order;
- `GetEntry` returns the first entry with the name.

## Model

| member | source | states |
|---|---|---|
| MikrotikConfig.NewMikrotikScript | plugin/mikrotik/rsc_out.go:61-82 | type and description are the plugin constants and the action is kept; output name, directory and list name are never empty; each equals the configured value when that is non-empty and otherwise its default (`mikrotik-acl.rsc`, `output/mikrotik`, `CN`); wanted list and IP type are copied; the overwrite list is empty |
| MikrotikConfig.EmptyInputDefaults | plugin/mikrotik/rsc_out.go:15-24 | an empty configuration yields exactly `mikrotik-acl.rsc`, `output/mikrotik` and `CN`, with no wanted or overwrite names |
| MikrotikConfig.DefaultingIdempotent | plugin/mikrotik/rsc_out.go:61-71 | feeding a built converter's fields back through the defaulting changes nothing |
| Ascii.UpperChar | plugin/mikrotik/rsc_out.go:181 | the result is never a lower-case letter; a lower-case letter moves up by 32, every other character (white space included) is unchanged |
| Ascii.LowerChar | plugin/mikrotik/rsc_out.go:118 | the result is never an upper-case letter; an upper-case letter moves down by 32, every other character is unchanged |
| Ascii.ToUpper | plugin/mikrotik/rsc_out.go:181 | same length, each character upper-cased in place |
| Ascii.ToLower | plugin/mikrotik/rsc_out.go:118 | same length, each character lower-cased in place |
| Ascii.ToUpperIdempotent | plugin/mikrotik/rsc_out.go:181 | upper-casing twice is upper-casing once |
| Ascii.ToLowerNoop | plugin/mikrotik/rsc_out.go:118 | a string with no upper-case letter is its own lower-case form |
| Ascii.TrimLeftSpec | plugin/mikrotik/rsc_out.go:181 | the result is a suffix of the input, everything cut is white space, and the result does not start with white space |
| Ascii.TrimRightSpec | plugin/mikrotik/rsc_out.go:181 | the result is a prefix of the input, everything cut is white space, and the result does not end with white space |
| Ascii.TrimSpaceSpec | plugin/mikrotik/rsc_out.go:181 | the trimmed string is no longer than the input, neither starts nor ends with white space, and is empty exactly when the input is all white space |
| Ascii.TrimSpaceNoop | plugin/mikrotik/rsc_out.go:181 | a string without white space at either end is unchanged by trimming |
| Lib.Kept | plugin/mikrotik/rsc_out.go:149-156 | the kept ranges are ranges of the input admitted by the option, and every admitted range of the input is kept |
| Lib.KeptAll | plugin/mikrotik/rsc_out.go:155 | marshalling without an option keeps every range, in order |
| Lib.KeptSplitsFamilies | plugin/mikrotik/rsc_out.go:150-153 | ignoring IPv6 leaves only IPv4 ranges, ignoring IPv4 leaves only IPv6 ranges, and the two results together are as long as the input |
| Lib.MarshalText | plugin/mikrotik/rsc_out.go:149-159 | fails exactly when the entry has a fault; otherwise returns the texts of the kept ranges |
| Lib.LoopNames | plugin/mikrotik/rsc_out.go:197-198 | one name per container entry, in enumeration order |
| Lib.GetEntry | plugin/mikrotik/rsc_out.go:106-110 | finds an entry exactly when the name is among the container's names, and the entry found is in the container under that name |
| MikrotikSelect.NormalizeBlank | plugin/mikrotik/rsc_out.go:181 | a configured name normalises to the empty string exactly when it is all white space; a normalised name has no lower-case letter |
| MikrotikSelect.NormalizeIdempotent | plugin/mikrotik/rsc_out.go:181 | normalising twice is normalising once |
| MikrotikSelect.NormalizeList | plugin/mikrotik/rsc_out.go:180-184 | the normalised list is no longer than the configured one and holds no empty name |
| MikrotikSelect.NormalizeListNormalized | plugin/mikrotik/rsc_out.go:180-184 | every name in the normalised list is already normalised |
| MikrotikSelect.NormalizeListEmpty | plugin/mikrotik/rsc_out.go:180-187 | the normalised list is empty exactly when every configured name normalises to the empty string |
| MikrotikSelect.NormalizeListNoBlanks | plugin/mikrotik/rsc_out.go:180-184 | when no configured name is blank, the normalised list is the names normalised one by one, in the same order and with duplicates kept |
| MikrotikSelect.NormalizeListIsFilter | plugin/mikrotik/rsc_out.go:180-184 | the normalised list is the configured names normalised one by one with the blank results filtered out, so (by `ExcludingExact`) it keeps their order and every non-blank name as often as it occurs |
| MikrotikSelect.NormalizeListMembers | plugin/mikrotik/rsc_out.go:190-195 | a name is in the normalised list exactly when it is non-empty and some configured name normalises to it |
| MikrotikSelect.Excluding | plugin/mikrotik/rsc_out.go:197-204 | the kept names are container names outside the overwrite list, and there are no more of them than container names |
| MikrotikSelect.ExcludingExact | plugin/mikrotik/rsc_out.go:197-204 | the kept names are a subsequence of the enumeration; a name in the overwrite list occurs zero times and any other name as often as in the container |
| MikrotikSelect.ExcludingNothing | plugin/mikrotik/rsc_out.go:197-204 | with an empty overwrite list every container name is kept, in order |
| MikrotikSelect.EntryNameOrder | plugin/mikrotik/rsc_out.go:185-206 | without wanted names the selection ends with the normalised overwrite list, and every name before that suffix is a container name outside the overwrite list |
| MikrotikSelect.WantedOverrides | plugin/mikrotik/rsc_out.go:179-187 | a non-empty normalised wanted list is the selection, whatever the overwrite list and the container hold |
| MikrotikSelect.OverwriteLast | plugin/mikrotik/rsc_out.go:188-206 | without wanted names, a position holds an overwrite name exactly when it lies in the trailing suffix; overwrite names occur as often as configured, other names as often as in the container |
| MikrotikSelect.KeptInLoopOrder | plugin/mikrotik/rsc_out.go:196-204 | without wanted names, the part before the overwrite suffix is a subsequence of the container's enumeration order |
| MikrotikSelect.FreshConverterSelectsAll | plugin/mikrotik/rsc_out.go:73-82 | a converter built by `newMikrotikScript` with no wanted names selects every container name, in enumeration order |
| MikrotikSelect.GetEntryNameListInOrder | plugin/mikrotik/rsc_out.go:178-208 | the three loops and the overwrite map compute exactly `EntryNameOrder` |
| MikrotikRender.FilterFor | plugin/mikrotik/rsc_out.go:149-156 | IPv4 ignores IPv6, IPv6 ignores IPv4, every other IP type ignores nothing; in family terms, a family is admitted exactly when it is V4 under `ipv4`, V6 under `ipv6`, and always otherwise |
| MikrotikRender.FirstNewline | plugin/mikrotik/rsc_out.go:164 | the index returned holds the first line break, or is the length when there is none |
| MikrotikRender.LinesAppend | plugin/mikrotik/rsc_out.go:163-165 | the add lines of two range lists are the lines of the first followed by the lines of the second |
| MikrotikRender.ParseLinesStep | plugin/mikrotik/rsc_out.go:164 | reading back one add line yields its CIDR and continues with the rest |
| MikrotikRender.LinesRoundTrip | plugin/mikrotik/rsc_out.go:161-167 | the add lines read back as exactly the CIDRs they were made from, in order, so one line per CIDR and no other bytes |
| MikrotikRender.RenderEntryOutcome | plugin/mikrotik/rsc_out.go:145-168 | for any list name, rendering fails exactly when marshalling does, passing its error on; on success the text is the add lines of the entry's ranges of the configured family, with IPv4 giving only V4 ranges, IPv6 only V6 ranges and any other type all of them |
| MikrotikRender.RenderEntryFamilies | plugin/mikrotik/rsc_out.go:145-168 | rendering fails exactly when marshalling does, passing its error on; on success the text reads back as the entry's ranges of the configured family, with IPv4 giving only V4 ranges, IPv6 only V6 ranges and any other type all of them |
| MikrotikRender.LogStatementNoNewline | plugin/mikrotik/rsc_out.go:172 | the log statement holds no line break |
| MikrotikRender.RemoveCommandNoNewline | plugin/mikrotik/rsc_out.go:173 | the remove command holds no line break |
| MikrotikRender.PreambleFirstLine | plugin/mikrotik/rsc_out.go:172-173 | the first line of the preamble is the log statement and the remove command together, with no break between them |
| MikrotikRender.PreambleBreaks | plugin/mikrotik/rsc_out.go:170-176 | the preamble holds exactly two line breaks and ends with one |
| MikrotikRender.PreambleEndsWithBreak | plugin/mikrotik/rsc_out.go:174 | the preamble's last character is a line break |
| MikrotikRender.PreambleInjective | plugin/mikrotik/rsc_out.go:170-176 | different address-list names give different preambles |
| MikrotikRender.AddMikrotikScriptPrefix | plugin/mikrotik/rsc_out.go:170-176 | the buffer holds exactly the log statement, the remove statement and the address-list menu line for the configured list name |
| MikrotikRender.MarshalData | plugin/mikrotik/rsc_out.go:145-168 | the result is exactly `RenderEntry`: the marshalling error, or one add line per CIDR in the order returned |
| MikrotikOutput.FileSystem.constructor | plugin/mikrotik/rsc_out.go:134-143 | a file system with no writes yet and the given failing names |
| MikrotikOutput.FileSystem.WriteFile | plugin/mikrotik/rsc_out.go:134-143 | a failing name gives a write error and leaves the log unchanged; any other name appends exactly one write of the data to the log |
| MikrotikOutput.Body | plugin/mikrotik/rsc_out.go:99-117 | only a marshalling error can stop the buffer; a complete buffer starts with the preamble |
| MikrotikOutput.RenderNamesAppend | plugin/mikrotik/rsc_out.go:105-117 | rendering a concatenation of name lists chains the two renderings |
| MikrotikOutput.MissSkipped | plugin/mikrotik/rsc_out.go:106-110 | a name the container lacks contributes nothing and the loop carries on |
| MikrotikOutput.RenderNamesError | plugin/mikrotik/rsc_out.go:111-114 | rendering fails exactly when some selected, present entry fails to marshal, and the error is that of the first such entry |
| MikrotikOutput.RenderNamesLines | plugin/mikrotik/rsc_out.go:105-117 | a complete rendering is the add lines of all selected entries' ranges, concatenated in selection order |
| MikrotikOutput.SelectedCidrsOneLine | plugin/mikrotik/rsc_out.go:105-117 | when no range text holds a line break, no selected range text does |
| MikrotikOutput.BodyReadsBack | plugin/mikrotik/rsc_out.go:99-117 | after the preamble, a complete buffer reads back as exactly the selected entries' ranges of the configured family, in selection order |
| MikrotikOutput.BodyError | plugin/mikrotik/rsc_out.go:111-114 | the buffer fails exactly when some selected name is present and fails to marshal |
| MikrotikOutput.EmptyRunWritesPreamble | plugin/mikrotik/rsc_out.go:103 | with nothing selected and an empty container the buffer is the preamble alone |
| MikrotikOutput.ExampleNames | plugin/mikrotik/rsc_out.go:180-184 | the wanted names `us` and `cn` normalise to `US` and `CN`, in that order |
| MikrotikOutput.WantedIPv4Example | plugin/mikrotik/rsc_out.go:97-117 | a worked run: wanted `us` and `cn` with IPv4 only give the preamble for `CN`, then the IPv4 line of `US`, then that of `CN` |
| MikrotikOutput.FailurePersists | plugin/mikrotik/rsc_out.go:111-114 | once a prefix of the selection fails, the whole rendering fails with the same error |
| MikrotikOutput.AnyFoundExists | plugin/mikrotik/rsc_out.go:99-116 | the `updated` flag of the loop is set exactly when some selected name is found in the container |
| MikrotikOutput.DefaultNameWrittenTwice | plugin/mikrotik/rsc_out.go:118-125 | under the default output name the lower-cased name is the name itself, so both writes go to the same file |
| MikrotikOutput.BuildBuffer | plugin/mikrotik/rsc_out.go:99-117 | the loop returns exactly `Body`, and on success its `updated` flag says whether any selected name was found |
| MikrotikOutput.Output | plugin/mikrotik/rsc_out.go:97-132 | a marshalling error is returned before anything is written; otherwise the buffer goes first to the lower-cased name and, if that succeeds, always to the configured name; each write error is returned with the log holding only the earlier writes; the "failed to write file" error never occurs |

## Left out

- JSON decoding of the configuration (`json.Unmarshal`): the model starts from
  the decoded record, so a malformed configuration is not modelled.
- The plugin registration in `init`, and the getters `GetType`, `GetAction` and
  `GetDescription`: plumbing and field reads with no logic.
- `log.Printf` diagnostics, for the missing entry and for the successful write.
- `writeFile`'s `os.MkdirAll` and `os.WriteFile`, permissions included: reduced
  to a write log with a set of failing file names. The directory and the file
  name are kept apart rather than joined with `filepath.Join`.
- The internals of the `lib` package: CIDR parsing, the family split and the
  real iteration order of `Container.Loop`. An entry carries its ranges already
  tagged V4 or V6, and a marshalling error is an optional fault stored in the
  entry.
- Lib.MarshalText: a marshalling failure is the same under every filter option.
  The `lib` package is not part of this model, so a failure that occurs under
  one option only cannot be expressed.
- The values of `lib.IPv4` and `lib.IPv6` are taken to be `ipv4` and `ipv6`.
  Any other IP type emits all ranges, as the `default` branch does.
- Ascii.ToUpper, Ascii.ToLower, Ascii.TrimSpace: ASCII only. Unicode case
  mapping and Unicode white space are not modelled.
- Bytes: the buffers of `bytes.Buffer` and `[]byte` are modelled as strings.
  `fmt.Sprintf` with `%s` is modelled as concatenation.
- MikrotikOutput.Output: the rendering loop is the separate method
  `BuildBuffer`, which `Output` calls. The result is the same, but the loop is
  not inline.
- Concurrency and aliasing: the converter is a value that no operation changes,
  so `Output` cannot alter it. Only the file system is mutable.
