/**
 * The script text: the preamble that resets the address list
 * (`addMikrotikScriptPrefix`) and one guarded `add` statement per CIDR of an
 * entry (`marshalData`). Bytes are modelled as characters.
 */
module MikrotikRender {
  import opened Wrappers
  import opened Lib
  import opened MikrotikConfig

  const ADDRESS_LIST := "/ip firewall address-list"

  function LogStatement(listName: string): string
  {
    "/log info \"Loading " + listName + " address list\""
  }

  /** Removes every address the device currently has in the list. */
  function RemoveCommand(listName: string): string
  {
    ADDRESS_LIST + " remove [" + ADDRESS_LIST + " find list=" + listName + "]"
  }

  function RemoveStatement(listName: string): string
  {
    RemoveCommand(listName) + "\n"
  }

  const ENTER_STATEMENT := ADDRESS_LIST + "\n"

  /** The preamble: log statement and remove statement on one line, then the address-list context. */
  function Preamble(listName: string): string
  {
    LogStatement(listName) + RemoveStatement(listName) + ENTER_STATEMENT
  }

  const ADD_HEAD := ":do { add address="

  /** What follows the CIDR on its line, up to the line break. */
  function AddTail(listName: string): string
  {
    " list=" + listName + " } on-error={}"
  }

  /** The guarded statement that adds one CIDR to the list; a failure on the device is ignored. */
  function AddLine(cidr: string, listName: string): string
  {
    ADD_HEAD + cidr + AddTail(listName) + "\n"
  }

  /** One `AddLine` per CIDR, in order. */
  function Lines(cidrs: seq<string>, listName: string): string
  {
    if cidrs == [] then "" else AddLine(cidrs[0], listName) + Lines(cidrs[1..], listName)
  }

  /** The `MarshalText` option for the configured IP type: `ipv4` ignores IPv6, `ipv6` ignores IPv4, anything else keeps both. */
  function FilterFor(ipType: string): (opt: MarshalOption)
    ensures ipType == IPV4 ==> opt == IgnoreIPv6
    ensures ipType == IPV6 ==> opt == IgnoreIPv4
    ensures ipType != IPV4 && ipType != IPV6 ==> opt == KeepAll
    ensures forall f :: Admits(opt, f) <==> (ipType == IPV4 ==> f == V4) && (ipType == IPV6 ==> f == V6)
  {
    if ipType == IPV4 then IgnoreIPv6 else if ipType == IPV6 then IgnoreIPv4 else KeepAll
  }

  /** What `marshalData` returns for an entry: its filtered CIDRs as add statements, or the marshalling error. */
  function RenderEntry(o: Converter, e: Entry): Result<string, string>
  {
    match MarshalText(e, FilterFor(o.onlyIPType))
    case Failure(err) => Failure(err)
    case Success(cidrs) => Success(Lines(cidrs, o.acListName))
  }

  /** The index of the first line break of `s`, or `|s|` when there is none. */
  function FirstNewline(s: string): (k: nat)
    ensures k <= |s|
    ensures forall i :: 0 <= i < k ==> s[i] != '\n'
    ensures k < |s| ==> s[k] == '\n'
  {
    if s == [] || s[0] == '\n' then 0 else 1 + FirstNewline(s[1..])
  }

  /**
   * Reads a body of add statements for `listName` back into the CIDRs it adds,
   * or `None` when some line is not such a statement.
   */
  function ParseLines(s: string, listName: string): Option<seq<string>>
    decreases |s|
  {
    if s == [] then Some([])
    else
      var k := FirstNewline(s);
      if k == |s| then None
      else
        var line := s[..k];
        var tail := AddTail(listName);
        if |line| >= |ADD_HEAD| + |tail| && line[..|ADD_HEAD|] == ADD_HEAD && line[|line| - |tail|..] == tail then
          match ParseLines(s[k + 1..], listName)
          case None => None
          case Some(rest) => Some([line[|ADD_HEAD|..|line| - |tail|]] + rest)
        else None
  }

  predicate NoNewline(s: string)
  {
    '\n' !in s
  }

  /** The fixed parts of an add statement contain no line break. */
  lemma AddTextNoNewline()
    ensures NoNewline(ADD_HEAD) && NoNewline(" list=") && NoNewline(" } on-error={}")
  {
  }

  lemma {:induction false} LinesAppend(a: seq<string>, b: seq<string>, listName: string)
    ensures Lines(a + b, listName) == Lines(a, listName) + Lines(b, listName)
  {
    if a != [] {
      assert (a + b)[0] == a[0];
      assert (a + b)[1..] == a[1..] + b;
      LinesAppend(a[1..], b, listName);
      calc {
        Lines(a + b, listName);
        AddLine(a[0], listName) + Lines(a[1..] + b, listName);
        AddLine(a[0], listName) + (Lines(a[1..], listName) + Lines(b, listName));
        (AddLine(a[0], listName) + Lines(a[1..], listName)) + Lines(b, listName);
      }
    } else {
      assert a + b == b;
    }
  }

  lemma {:induction false} FirstNewlineAfter(a: string, b: string)
    requires NoNewline(a)
    ensures FirstNewline(a + "\n" + b) == |a|
  {
    if a != [] {
      assert (a + "\n" + b)[0] == a[0];
      assert (a + "\n" + b)[1..] == a[1..] + "\n" + b;
      FirstNewlineAfter(a[1..], b);
    }
  }

  /** Reading back one add statement yields its CIDR and continues after its line break. */
  lemma ParseLinesStep(cidr: string, listName: string, rest: string)
    requires NoNewline(cidr) && NoNewline(listName)
    ensures ParseLines(AddLine(cidr, listName) + rest, listName)
         == match ParseLines(rest, listName)
            case None => None
            case Some(more) => Some([cidr] + more)
  {
    var tail := AddTail(listName);
    var line := ADD_HEAD + cidr + tail;
    AddTextNoNewline();
    assert NoNewline(tail);
    assert NoNewline(line);
    var s := AddLine(cidr, listName) + rest;
    assert s == line + "\n" + rest;
    FirstNewlineAfter(line, rest);
    assert s[..|line|] == line;
    assert s[|line| + 1..] == rest;
    assert line[..|ADD_HEAD|] == ADD_HEAD;
    assert line[|line| - |tail|..] == tail;
    assert line[|ADD_HEAD|..|line| - |tail|] == cidr;
  }

  /**
   * The add statements say exactly which CIDRs were rendered: when neither the
   * list name nor any CIDR contains a line break, reading the text back yields
   * the CIDRs, one per line, in order, and nothing else was written.
   */
  lemma {:induction false} LinesRoundTrip(cidrs: seq<string>, listName: string)
    requires NoNewline(listName)
    requires forall k :: 0 <= k < |cidrs| ==> NoNewline(cidrs[k])
    ensures ParseLines(Lines(cidrs, listName), listName) == Some(cidrs)
  {
    if cidrs != [] {
      ParseLinesStep(cidrs[0], listName, Lines(cidrs[1..], listName));
      LinesRoundTrip(cidrs[1..], listName);
      assert [cidrs[0]] + cidrs[1..] == cidrs;
    }
  }

  /**
   * For any list name: rendering fails exactly when the entry's `MarshalText`
   * does, with that error; otherwise the text is one add line per CIDR of the
   * selected family, in order.
   */
  lemma RenderEntryOutcome(o: Converter, e: Entry)
    ensures RenderEntry(o, e).Failure? <==> e.fault.Some?
    ensures RenderEntry(o, e).Failure? ==> RenderEntry(o, e).error == e.fault.value
    ensures RenderEntry(o, e).Success? ==>
      var emitted := Kept(e.cidrs, FilterFor(o.onlyIPType));
      && RenderEntry(o, e).value == Lines(Texts(emitted), o.acListName)
      && (o.onlyIPType == IPV4 ==> forall k :: 0 <= k < |emitted| ==> emitted[k].family == V4)
      && (o.onlyIPType == IPV6 ==> forall k :: 0 <= k < |emitted| ==> emitted[k].family == V6)
      && (o.onlyIPType != IPV4 && o.onlyIPType != IPV6 ==> emitted == e.cidrs)
  {
    KeptAll(e.cidrs);
    KeptSplitsFamilies(e.cidrs);
  }

  /**
   * `marshalData` fails exactly when `MarshalText` does; otherwise its text reads
   * back as the entry's CIDRs of the selected family, in order: only IPv4 ones
   * for `ipv4`, only IPv6 ones for `ipv6`, all of them for any other IP type.
   */
  lemma RenderEntryFamilies(o: Converter, e: Entry)
    requires NoNewline(o.acListName)
    requires forall k :: 0 <= k < |e.cidrs| ==> NoNewline(e.cidrs[k].text)
    ensures RenderEntry(o, e).Failure? <==> e.fault.Some?
    ensures RenderEntry(o, e).Failure? ==> RenderEntry(o, e).error == e.fault.value
    ensures RenderEntry(o, e).Success? ==>
      var emitted := Kept(e.cidrs, FilterFor(o.onlyIPType));
      && ParseLines(RenderEntry(o, e).value, o.acListName) == Some(Texts(emitted))
      && (o.onlyIPType == IPV4 ==> forall k :: 0 <= k < |emitted| ==> emitted[k].family == V4)
      && (o.onlyIPType == IPV6 ==> forall k :: 0 <= k < |emitted| ==> emitted[k].family == V6)
      && (o.onlyIPType != IPV4 && o.onlyIPType != IPV6 ==> emitted == e.cidrs)
  {
    var emitted := Kept(e.cidrs, FilterFor(o.onlyIPType));
    var texts := Texts(emitted);
    forall k | 0 <= k < |texts|
      ensures NoNewline(texts[k])
    {
      var j :| 0 <= j < |e.cidrs| && e.cidrs[j] == emitted[k];
    }
    LinesRoundTrip(texts, o.acListName);
    RenderEntryOutcome(o, e);
  }

  lemma LogStatementNoNewline(listName: string)
    requires NoNewline(listName)
    ensures NoNewline(LogStatement(listName))
  {
    assert NoNewline("/log info \"Loading ") && NoNewline(" address list\"");
  }

  lemma RemoveCommandNoNewline(listName: string)
    requires NoNewline(listName)
    ensures NoNewline(RemoveCommand(listName))
  {
    assert NoNewline(ADDRESS_LIST) && NoNewline(" remove [") && NoNewline(" find list=") && NoNewline("]");
  }

  /** The preamble's first line break comes right after the remove command: the log and remove statements share one line. */
  lemma PreambleFirstLine(listName: string)
    requires NoNewline(listName)
    ensures FirstNewline(Preamble(listName)) == |LogStatement(listName)| + |RemoveCommand(listName)|
  {
    var head := LogStatement(listName) + RemoveCommand(listName);
    LogStatementNoNewline(listName);
    RemoveCommandNoNewline(listName);
    assert Preamble(listName) == head + "\n" + ENTER_STATEMENT;
    FirstNewlineAfter(head, ENTER_STATEMENT);
  }

  /** The preamble holds exactly two line breaks and ends with one, so it is two complete lines. */
  lemma PreambleBreaks(listName: string)
    requires NoNewline(listName)
    ensures multiset(Preamble(listName))['\n'] == 2
    ensures Preamble(listName)[|Preamble(listName)| - 1] == '\n'
  {
    var head := LogStatement(listName) + RemoveCommand(listName);
    LogStatementNoNewline(listName);
    RemoveCommandNoNewline(listName);
    assert Preamble(listName) == head + "\n" + (ADDRESS_LIST + "\n");
    assert NoNewline(ADDRESS_LIST);
    NewlineCount(head, ADDRESS_LIST);
    PreambleEndsWithBreak(listName);
  }

  lemma PreambleEndsWithBreak(listName: string)
    ensures Preamble(listName)[|Preamble(listName)| - 1] == '\n'
  {
    assert Preamble(listName) == LogStatement(listName) + RemoveStatement(listName) + (ADDRESS_LIST + "\n");
  }

  lemma NewlineCount(a: string, b: string)
    requires NoNewline(a) && NoNewline(b)
    ensures multiset(a + "\n" + (b + "\n"))['\n'] == 2
  {
    assert multiset(a)['\n'] == 0;
    assert multiset(b)['\n'] == 0;
    assert multiset(a + "\n" + (b + "\n")) == multiset(a) + multiset("\n") + multiset(b) + multiset("\n");
  }

  /** The preamble names the list: two different list names give two different preambles. */
  lemma PreambleInjective(a: string, b: string)
    requires Preamble(a) == Preamble(b)
    ensures a == b
  {
    var n := |"/log info \"Loading "|;
    assert |Preamble(a)| == |Preamble(b)|;
    assert |a| == |b|;
    assert Preamble(a)[n..n + |a|] == a;
    assert Preamble(b)[n..n + |b|] == b;
  }

  /** `addMikrotikScriptPrefix`: three writes into a fresh buffer. */
  method AddMikrotikScriptPrefix(o: Converter) returns (data: string)
    ensures data == Preamble(o.acListName)
  {
    var buf := LogStatement(o.acListName);
    buf := buf + RemoveStatement(o.acListName);
    buf := buf + ENTER_STATEMENT;
    data := buf;
  }

  /** `marshalData`: picks the family option, marshals the entry, and writes one add statement per CIDR. */
  method MarshalData(o: Converter, e: Entry) returns (r: Result<string, string>)
    ensures r == RenderEntry(o, e)
  {
    var marshalled := MarshalText(e, FilterFor(o.onlyIPType));
    if marshalled.Failure? {
      return Failure(marshalled.error);
    }
    var entryCidr := marshalled.value;
    var buf := "";
    for i := 0 to |entryCidr|
      invariant buf == Lines(entryCidr[..i], o.acListName)
    {
      LinesAppend(entryCidr[..i], [entryCidr[i]], o.acListName);
      assert entryCidr[..i + 1] == entryCidr[..i] + [entryCidr[i]];
      buf := buf + AddLine(entryCidr[i], o.acListName);
    }
    assert entryCidr[..|entryCidr|] == entryCidr;
    return Success(buf);
  }
}
