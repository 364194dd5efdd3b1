/**
 * `Output`: the preamble, then every selected entry rendered in selection
 * order, then the same text written under the lower-cased output name and
 * under the configured one. The file system is reduced to a log of completed
 * writes and the set of file names whose write fails.
 */
module MikrotikOutput {
  import opened Wrappers
  import Ascii
  import opened Lib
  import opened MikrotikConfig
  import opened MikrotikSelect
  import opened MikrotikRender

  datatype Error =
    | MarshalFailed(reason: string)          // the error `marshalData` passes on
    | WriteFailed(dir: string, name: string) // directory creation or the file write failed
    | NothingWritten(typeName: string, action: string) // "type %s | action %s failed to write file"

  /** One completed write of `data` to the file `name` in directory `dir`. */
  datatype Write = Write(dir: string, name: string, data: string)

  /** The directory and file writes of `writeFile`, as an effect log. */
  class FileSystem {
    var writes: seq<Write>
    /** File names for which `os.MkdirAll` or `os.WriteFile` reports an error. */
    var failing: set<string>

    constructor (failing: set<string>)
      ensures writes == [] && this.failing == failing
    {
      writes := [];
      this.failing := failing;
    }

    /** `writeFile`: creates `dir` if needed and writes `data` to `dir`/`name`, or fails leaving the log as it was. */
    method WriteFile(dir: string, name: string, data: string) returns (r: Result<(), Error>)
      modifies this`writes
      ensures name in failing ==> r == Failure(WriteFailed(dir, name)) && writes == old(writes)
      ensures name !in failing ==> r == Success(()) && writes == old(writes) + [Write(dir, name, data)]
    {
      if name in failing {
        return Failure(WriteFailed(dir, name));
      }
      writes := writes + [Write(dir, name, data)];
      return Success(());
    }
  }

  /** What one selected name contributes: nothing when the container lacks it, its rendered entry otherwise. */
  function EntryText(o: Converter, c: Container, name: string): Result<string, string>
  {
    match GetEntry(c, name)
    case None => Success("")
    case Some(e) => RenderEntry(o, e)
  }

  /** Text of two runs one after the other; the first error wins. */
  function Chain(first: Result<string, string>, second: Result<string, string>): Result<string, string>
  {
    match first
    case Failure(err) => Failure(err)
    case Success(s) =>
      match second
      case Failure(err) => Failure(err)
      case Success(t) => Success(s + t)
  }

  /** The text contributed by `names`, in order; the first marshalling error ends it. */
  function RenderNames(o: Converter, c: Container, names: seq<string>): Result<string, string>
    decreases |names|
  {
    if names == [] then Success("")
    else Chain(RenderNames(o, c, names[..|names| - 1]), EntryText(o, c, names[|names| - 1]))
  }

  /** The buffer `Output` hands to both writes, or the error it returns before writing. */
  function Body(o: Converter, c: Container): (r: Result<string, Error>)
    ensures r.Failure? ==> r.error.MarshalFailed?
    ensures r.Success? ==>
      |Preamble(o.acListName)| <= |r.value| && r.value[..|Preamble(o.acListName)|] == Preamble(o.acListName)
  {
    match RenderNames(o, c, EntryNameOrder(o, c))
    case Failure(err) => Failure(MarshalFailed(err))
    case Success(s) => Success(Preamble(o.acListName) + s)
  }

  lemma ChainAssociative(x: Result<string, string>, y: Result<string, string>, z: Result<string, string>)
    ensures Chain(Chain(x, y), z) == Chain(x, Chain(y, z))
  {
    if x.Success? && y.Success? && z.Success? {
      assert x.value + y.value + z.value == x.value + (y.value + z.value);
    }
  }

  lemma ChainEmpty(x: Result<string, string>)
    ensures Chain(x, Success("")) == x
  {
    if x.Success? {
      assert x.value + "" == x.value;
    }
  }

  /** Rendering a concatenation renders each part and joins them, stopping at the first error. */
  lemma {:induction false} RenderNamesAppend(o: Converter, c: Container, a: seq<string>, b: seq<string>)
    ensures RenderNames(o, c, a + b) == Chain(RenderNames(o, c, a), RenderNames(o, c, b))
    decreases |b|
  {
    if b == [] {
      assert a + b == a;
      ChainEmpty(RenderNames(o, c, a));
    } else {
      var init := b[..|b| - 1];
      assert (a + b)[..|a + b| - 1] == a + init;
      assert (a + b)[|a + b| - 1] == b[|b| - 1];
      RenderNamesAppend(o, c, a, init);
      ChainAssociative(RenderNames(o, c, a), RenderNames(o, c, init), EntryText(o, c, b[|b| - 1]));
    }
  }

  /** A selected name the container lacks contributes nothing and processing goes on past it. */
  lemma MissSkipped(o: Converter, c: Container, a: seq<string>, name: string, b: seq<string>)
    requires GetEntry(c, name).None?
    ensures RenderNames(o, c, a + [name] + b) == RenderNames(o, c, a + b)
  {
    RenderNamesAppend(o, c, a + [name], b);
    RenderNamesAppend(o, c, a, [name]);
    RenderNamesAppend(o, c, a, b);
    assert [name][..0] == [];
    ChainEmpty(Success(""));
    ChainEmpty(RenderNames(o, c, a));
  }

  /** `name` is in the container and marshalling its entry fails. */
  predicate FailsAt(o: Converter, c: Container, name: string)
  {
    EntryText(o, c, name).Failure?
  }

  /**
   * Rendering fails exactly when some selected name is found and its entry fails
   * to marshal, and the error returned is that of the first such name.
   */
  lemma {:induction false} RenderNamesError(o: Converter, c: Container, names: seq<string>)
    ensures RenderNames(o, c, names).Failure? <==> exists i :: 0 <= i < |names| && FailsAt(o, c, names[i])
    ensures RenderNames(o, c, names).Failure? ==>
      exists i :: 0 <= i < |names| && FailsAt(o, c, names[i])
        && (forall j :: 0 <= j < i ==> !FailsAt(o, c, names[j]))
        && RenderNames(o, c, names).error == EntryText(o, c, names[i]).error
    decreases |names|
  {
    if names != [] {
      var init := names[..|names| - 1];
      var last := |names| - 1;
      assert forall j :: 0 <= j < |init| ==> init[j] == names[j];
      RenderNamesError(o, c, init);
      if RenderNames(o, c, init).Failure? {
        var i :| 0 <= i < |init| && FailsAt(o, c, init[i])
          && (forall j :: 0 <= j < i ==> !FailsAt(o, c, init[j]))
          && RenderNames(o, c, init).error == EntryText(o, c, init[i]).error;
        assert FailsAt(o, c, names[i]);
      } else if FailsAt(o, c, names[last]) {
        assert forall j :: 0 <= j < last ==> !FailsAt(o, c, names[j]) by {
          forall j | 0 <= j < last ensures !FailsAt(o, c, names[j]) {
            assert init[j] == names[j];
          }
        }
      } else {
        forall i | 0 <= i < |names| ensures !FailsAt(o, c, names[i]) {
          if i < last {
            assert init[i] == names[i];
          }
        }
      }
    }
  }

  /** The CIDR texts the entry called `name` contributes: none when it is missing or fails to marshal. */
  function EntryCidrs(o: Converter, c: Container, name: string): seq<string>
  {
    match GetEntry(c, name)
    case None => []
    case Some(e) =>
      match MarshalText(e, FilterFor(o.onlyIPType))
      case Failure(_) => []
      case Success(cidrs) => cidrs
  }

  /** The CIDR texts of all `names`, in selection order. */
  function SelectedCidrs(o: Converter, c: Container, names: seq<string>): seq<string>
    decreases |names|
  {
    if names == [] then []
    else SelectedCidrs(o, c, names[..|names| - 1]) + EntryCidrs(o, c, names[|names| - 1])
  }

  /** A successful rendering is one add statement per selected CIDR, in selection order and then entry order. */
  lemma {:induction false} RenderNamesLines(o: Converter, c: Container, names: seq<string>)
    requires RenderNames(o, c, names).Success?
    ensures RenderNames(o, c, names).value == Lines(SelectedCidrs(o, c, names), o.acListName)
    decreases |names|
  {
    if names != [] {
      var init := names[..|names| - 1];
      RenderNamesLines(o, c, init);
      LinesAppend(SelectedCidrs(o, c, init), EntryCidrs(o, c, names[|names| - 1]), o.acListName);
    }
  }

  /** No CIDR text in the container contains a line break. */
  ghost predicate TextsOnOneLine(c: Container)
  {
    forall e :: e in c ==> forall k :: 0 <= k < |e.cidrs| ==> NoNewline(e.cidrs[k].text)
  }

  lemma {:induction false} SelectedCidrsOneLine(o: Converter, c: Container, names: seq<string>)
    requires TextsOnOneLine(c)
    ensures forall k :: 0 <= k < |SelectedCidrs(o, c, names)| ==> NoNewline(SelectedCidrs(o, c, names)[k])
    decreases |names|
  {
    if names != [] {
      SelectedCidrsOneLine(o, c, names[..|names| - 1]);
      var name := names[|names| - 1];
      var more := EntryCidrs(o, c, name);
      if GetEntry(c, name).Some? {
        var e := GetEntry(c, name).value;
        var kept := Kept(e.cidrs, FilterFor(o.onlyIPType));
        forall k | 0 <= k < |kept| ensures NoNewline(kept[k].text) {
          var j :| 0 <= j < |e.cidrs| && e.cidrs[j] == kept[k];
        }
      }
    }
  }

  /**
   * On success the buffer is the preamble followed by text that reads back as
   * exactly the selected entries' CIDRs of the configured family, in selection
   * order: one add statement each and no other bytes.
   */
  lemma BodyReadsBack(o: Converter, c: Container)
    requires NoNewline(o.acListName) && TextsOnOneLine(c)
    requires Body(o, c).Success?
    ensures var data := Body(o, c).value;
            var n := |Preamble(o.acListName)|;
            ParseLines(data[n..], o.acListName) == Some(SelectedCidrs(o, c, EntryNameOrder(o, c)))
  {
    var names := EntryNameOrder(o, c);
    RenderNamesLines(o, c, names);
    SelectedCidrsOneLine(o, c, names);
    LinesRoundTrip(SelectedCidrs(o, c, names), o.acListName);
    var data := Body(o, c).value;
    assert data[|Preamble(o.acListName)|..] == RenderNames(o, c, names).value;
  }

  /** `Output` fails before writing exactly when a selected, present entry fails to marshal. */
  lemma BodyError(o: Converter, c: Container)
    ensures Body(o, c).Failure? <==>
      exists i :: 0 <= i < |EntryNameOrder(o, c)| && FailsAt(o, c, EntryNameOrder(o, c)[i])
  {
    RenderNamesError(o, c, EntryNameOrder(o, c));
  }

  /** With nothing configured and an empty container the buffer is the preamble alone, and it is still written. */
  lemma EmptyRunWritesPreamble(o: Converter)
    requires NormalizeList(o.want) == [] && NormalizeList(o.overwrite) == []
    ensures Body(o, []) == Success(Preamble(o.acListName))
  {
    assert EntryNameOrder(o, []) == [];
    assert Preamble(o.acListName) + "" == Preamble(o.acListName);
  }

  lemma ExampleNames()
    ensures NormalizeList(["us", "cn"]) == ["US", "CN"]
  {
    assert Normalize("us") == "US" by {
      assert Ascii.TrimSpace("us") == "us";
      assert Ascii.UpperChar('u') == 'U' && Ascii.UpperChar('s') == 'S';
    }
    assert Normalize("cn") == "CN" by {
      assert Ascii.TrimSpace("cn") == "cn";
      assert Ascii.UpperChar('c') == 'C' && Ascii.UpperChar('n') == 'N';
    }
    assert ["us", "cn"][..1] == ["us"];
    assert ["us"][..0] == [];
  }

  lemma ExampleEntry(o: Converter, c: Container, e: Entry, v4: string)
    requires o.onlyIPType == IPV4 && e.fault.None?
    requires GetEntry(c, e.name) == Some(e)
    requires Kept(e.cidrs, IgnoreIPv6) == [Cidr(V4, v4)]
    ensures EntryText(o, c, e.name) == Success(AddLine(v4, o.acListName))
  {
    assert Texts([Cidr(V4, v4)]) == [v4];
    assert Lines([v4], o.acListName) == AddLine(v4, o.acListName);
  }

  lemma RenderTwo(o: Converter, c: Container, first: string, second: string, t1: string, t2: string)
    requires EntryText(o, c, first) == Success(t1) && EntryText(o, c, second) == Success(t2)
    ensures RenderNames(o, c, [first, second]) == Success(t1 + t2)
  {
    assert [first, second][..1] == [first];
    assert [first][..0] == [];
    assert "" + t1 == t1;
    assert RenderNames(o, c, [first]) == Success(t1);
  }

  /**
   * Wanted names `us`, `cn`, list `CN`, IPv4 only, over a container holding CN
   * and US: exactly two add statements, US's IPv4 range first, and no IPv6 line.
   */
  lemma WantedIPv4Example()
    ensures var o := NewMikrotikScript("", RawConfig("", "", ["us", "cn"], IPV4, "CN"));
            var c := [Entry("CN", [Cidr(V4, "1.2.3.0/24")], None),
                      Entry("US", [Cidr(V4, "5.6.7.0/24"), Cidr(V6, "::1/128")], None)];
            Body(o, c) == Success(Preamble("CN") + (AddLine("5.6.7.0/24", "CN") + AddLine("1.2.3.0/24", "CN")))
  {
    var o := NewMikrotikScript("", RawConfig("", "", ["us", "cn"], IPV4, "CN"));
    var cn := Entry("CN", [Cidr(V4, "1.2.3.0/24")], None);
    var us := Entry("US", [Cidr(V4, "5.6.7.0/24"), Cidr(V6, "::1/128")], None);
    var c := [cn, us];
    ExampleNames();
    assert EntryNameOrder(o, c) == ["US", "CN"];
    assert GetEntry(c, "US") == Some(us);
    assert Kept(us.cidrs, IgnoreIPv6) == [Cidr(V4, "5.6.7.0/24")];
    ExampleEntry(o, c, us, "5.6.7.0/24");
    assert Kept(cn.cidrs, IgnoreIPv6) == [Cidr(V4, "1.2.3.0/24")];
    ExampleEntry(o, c, cn, "1.2.3.0/24");
    RenderTwo(o, c, "US", "CN", AddLine("5.6.7.0/24", "CN"), AddLine("1.2.3.0/24", "CN"));
  }

  /** Rendering failures between the `i`th and the last name do not change the first error. */
  lemma FailurePersists(o: Converter, c: Container, names: seq<string>, i: nat)
    requires i <= |names| && RenderNames(o, c, names[..i]).Failure?
    ensures RenderNames(o, c, names) == RenderNames(o, c, names[..i])
  {
    assert names == names[..i] + names[i..];
    RenderNamesAppend(o, c, names[..i], names[i..]);
  }

  /** Regrouping a concatenation; stated apart so that the loop of `BuildBuffer` need not search for it. */
  lemma AppendAssociative(a: string, b: string, c: string)
    ensures a + b + c == a + (b + c)
  {
  }

  /** Some name of `names` is in the container. */
  predicate AnyFound(c: Container, names: seq<string>)
    decreases |names|
  {
    names != [] && (AnyFound(c, names[..|names| - 1]) || GetEntry(c, names[|names| - 1]).Some?)
  }

  lemma {:induction false} AnyFoundExists(c: Container, names: seq<string>)
    ensures AnyFound(c, names) <==> exists i :: 0 <= i < |names| && GetEntry(c, names[i]).Some?
    decreases |names|
  {
    if names != [] {
      var init := names[..|names| - 1];
      AnyFoundExists(c, init);
      assert forall j :: 0 <= j < |init| ==> init[j] == names[j];
    }
  }

  /**
   * Under the default output name the lower-cased file name is the name
   * itself, so both writes of `Output` go to the same file.
   */
  lemma DefaultNameWrittenTwice(action: string, raw: RawConfig)
    requires raw.outputName == ""
    ensures var o := NewMikrotikScript(action, raw);
      o.outputName == DEFAULT_OUTPUT_NAME && Ascii.ToLower(o.outputName) == o.outputName
  {
    var n := DEFAULT_OUTPUT_NAME;
    assert n == "mikrotik-acl.rsc";
    Ascii.ToLowerNoop(n);
  }

  /**
   * The loop of `Output`: the preamble, then each
   * selected entry's text; a missing entry is skipped, a marshalling error is
   * returned at once. `updated` tells whether some selected entry was rendered.
   */
  method BuildBuffer(o: Converter, c: Container) returns (r: Result<string, Error>, updated: bool)
    ensures r == Body(o, c)
    ensures r.Success? ==> updated == AnyFound(c, EntryNameOrder(o, c))
  {
    updated := false;
    var data := AddMikrotikScriptPrefix(o);
    ghost var prefix := data;
    var names := GetEntryNameListInOrder(o, c);
    for i := 0 to |names|
      invariant RenderNames(o, c, names[..i]).Success?
      invariant data == prefix + RenderNames(o, c, names[..i]).value
      invariant updated == AnyFound(c, names[..i])
    {
      assert names[..i + 1][..i] == names[..i];
      var entry := GetEntry(c, names[i]);
      if entry.None? {
        ChainEmpty(RenderNames(o, c, names[..i]));
        continue;
      }
      var d := MarshalData(o, entry.value);
      if d.Failure? {
        FailurePersists(o, c, names, i + 1);
        return Failure(MarshalFailed(d.error)), updated;
      }
      AppendAssociative(prefix, RenderNames(o, c, names[..i]).value, d.value);
      data := data + d.value;
      updated := true;
    }
    assert names[..|names|] == names;
    return Success(data), updated;
  }

  /**
   * `Output`. A marshalling error returns before anything is written; otherwise
   * the same buffer is written under the lower-cased name and then, because the
   * `updated` flag is set just before it is tested, always under the configured
   * name as well, so the "failed to write file" error cannot be returned.
   */
  method Output(o: Converter, c: Container, fs: FileSystem) returns (r: Result<(), Error>)
    modifies fs`writes
    ensures Body(o, c).Failure? ==> r == Failure(Body(o, c).error) && fs.writes == old(fs.writes)
    ensures Body(o, c).Success? ==>
      var data := Body(o, c).value;
      var lower := Ascii.ToLower(o.outputName);
      if lower in fs.failing then
        r == Failure(WriteFailed(o.outputDir, lower)) && fs.writes == old(fs.writes)
      else if o.outputName in fs.failing then
        r == Failure(WriteFailed(o.outputDir, o.outputName))
        && fs.writes == old(fs.writes) + [Write(o.outputDir, lower, data)]
      else
        r == Success(())
        && fs.writes == old(fs.writes) + [Write(o.outputDir, lower, data), Write(o.outputDir, o.outputName, data)]
    ensures !(r.Failure? && r.error.NothingWritten?)
  {
    var buffer, updated := BuildBuffer(o, c);
    if buffer.Failure? {
      return Failure(buffer.error);
    }
    var data := buffer.value;
    var filename := Ascii.ToLower(o.outputName);
    r := fs.WriteFile(o.outputDir, filename, data);
    if r.Failure? {
      return r;
    }
    updated := true;
    if updated {
      r := fs.WriteFile(o.outputDir, o.outputName, data);
      if r.Failure? {
        return r;
      }
    } else {
      return Failure(NothingWritten(o.typeName, o.action));
    }
    return Success(());
  }
}
