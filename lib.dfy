/**
 * An abstract view of the `lib` package the converter consumes: an entry is a
 * name with CIDR ranges, a container is a fixed enumeration of entries, and
 * `MarshalText` renders an entry's ranges as text, optionally dropping one
 * address family. The real CIDR parsing and iteration order are not modelled:
 * the ranges are given already classified by family, the container's order is
 * the order of the sequence, and a marshalling failure is carried by the entry.
 */
module Lib {
  import opened Wrappers

  datatype Family = V4 | V6

  /** One CIDR range: its address family and its text form, e.g. `1.2.3.0/24`. */
  datatype Cidr = Cidr(family: Family, text: string)

  /** A named entry; `fault` is the error its `MarshalText` reports, if any. */
  datatype Entry = Entry(name: string, cidrs: seq<Cidr>, fault: Option<string>)

  /** The container, in the order its `Loop` enumerates the entries. */
  type Container = seq<Entry>

  /** The options `MarshalText` is called with: none, `IgnoreIPv4` or `IgnoreIPv6`. */
  datatype MarshalOption = KeepAll | IgnoreIPv4 | IgnoreIPv6

  predicate Admits(opt: MarshalOption, f: Family)
  {
    match opt
    case KeepAll => true
    case IgnoreIPv4 => f == V6
    case IgnoreIPv6 => f == V4
  }

  /** The ranges of `cidrs` that `opt` does not ignore, in their order. */
  function Kept(cidrs: seq<Cidr>, opt: MarshalOption): (r: seq<Cidr>)
    ensures |r| <= |cidrs|
    ensures forall k :: 0 <= k < |r| ==> r[k] in cidrs && Admits(opt, r[k].family)
    ensures forall k :: 0 <= k < |cidrs| && Admits(opt, cidrs[k].family) ==> cidrs[k] in r
  {
    if cidrs == [] then []
    else
      var rest := Kept(cidrs[1..], opt);
      assert forall k :: 1 <= k < |cidrs| ==> cidrs[k] == cidrs[1..][k - 1];
      if Admits(opt, cidrs[0].family) then [cidrs[0]] + rest else rest
  }

  function Texts(cidrs: seq<Cidr>): (r: seq<string>)
    ensures |r| == |cidrs|
  {
    seq(|cidrs|, k requires 0 <= k < |cidrs| => cidrs[k].text)
  }

  /** `Entry.MarshalText`: the entry's ranges as text, filtered by `opt`, or its fault. */
  function MarshalText(e: Entry, opt: MarshalOption): (r: Result<seq<string>, string>)
    ensures r.Failure? <==> e.fault.Some?
    ensures r.Success? ==> r.value == Texts(Kept(e.cidrs, opt))
  {
    match e.fault
    case Some(err) => Failure(err)
    case None => Success(Texts(Kept(e.cidrs, opt)))
  }

  /** The names `Container.Loop` yields, in enumeration order. */
  function LoopNames(c: Container): (r: seq<string>)
    ensures |r| == |c|
    ensures forall k :: 0 <= k < |c| ==> r[k] == c[k].name
  {
    seq(|c|, k requires 0 <= k < |c| => c[k].name)
  }

  /** `Container.GetEntry`: the first entry called `name`, if there is one. */
  function GetEntry(c: Container, name: string): (r: Option<Entry>)
    ensures r.Some? <==> name in LoopNames(c)
    ensures r.Some? ==> r.value in c && r.value.name == name
  {
    if c == [] then None
    else if c[0].name == name then Some(c[0])
    else
      assert LoopNames(c) == [c[0].name] + LoopNames(c[1..]);
      GetEntry(c[1..], name)
  }

  /** Marshalling without an option ignores nothing. */
  lemma {:induction false} KeptAll(cidrs: seq<Cidr>)
    ensures Kept(cidrs, KeepAll) == cidrs
  {
    if cidrs != [] {
      KeptAll(cidrs[1..]);
    }
  }

  /** Ignoring one family leaves exactly the ranges of the other, in order. */
  lemma {:induction false} KeptSplitsFamilies(cidrs: seq<Cidr>)
    ensures forall k :: 0 <= k < |Kept(cidrs, IgnoreIPv6)| ==> Kept(cidrs, IgnoreIPv6)[k].family == V4
    ensures forall k :: 0 <= k < |Kept(cidrs, IgnoreIPv4)| ==> Kept(cidrs, IgnoreIPv4)[k].family == V6
    ensures |Kept(cidrs, IgnoreIPv6)| + |Kept(cidrs, IgnoreIPv4)| == |cidrs|
  {
    if cidrs != [] {
      KeptSplitsFamilies(cidrs[1..]);
    }
  }
}
