/**
 * `getEntryNameListInOrder`: which entries are rendered, and in what order.
 * A non-empty normalised wanted list is the whole answer; otherwise every
 * container name outside the normalised overwrite list, in enumeration order,
 * followed by the normalised overwrite list itself.
 */
module MikrotikSelect {
  import Ascii
  import opened Lib
  import opened MikrotikConfig

  /** `strings.ToUpper(strings.TrimSpace(s))`. */
  function Normalize(s: string): string
  {
    Ascii.ToUpper(Ascii.TrimSpace(s))
  }

  /** A name normalises to the empty string exactly when it is all white space; a normalised name has no lower-case letter. */
  lemma NormalizeBlank(s: string)
    ensures Normalize(s) == "" <==> forall i :: 0 <= i < |s| ==> Ascii.IsSpace(s[i])
    ensures forall i :: 0 <= i < |Normalize(s)| ==> !Ascii.IsLower(Normalize(s)[i])
  {
    Ascii.TrimSpaceSpec(s);
  }

  /** A normalised name is its own normal form. */
  lemma NormalizeIdempotent(s: string)
    ensures Normalize(Normalize(s)) == Normalize(s)
  {
    var t := Ascii.TrimSpace(s);
    var u := Ascii.ToUpper(t);
    Ascii.TrimSpaceSpec(s);
    if u != [] {
      assert Ascii.IsSpace(u[0]) <==> Ascii.IsSpace(t[0]);
      assert Ascii.IsSpace(u[|u| - 1]) <==> Ascii.IsSpace(t[|t| - 1]);
    }
    Ascii.TrimSpaceNoop(u);
    Ascii.ToUpperIdempotent(t);
  }

  /** The configured names normalised, blank ones dropped, order and duplicates kept. */
  function NormalizeList(xs: seq<string>): (r: seq<string>)
    ensures |r| <= |xs|
    ensures forall k :: 0 <= k < |r| ==> r[k] != ""
  {
    if xs == [] then []
    else
      var init := NormalizeList(xs[..|xs| - 1]);
      var n := Normalize(xs[|xs| - 1]);
      if n != "" then init + [n] else init
  }

  /** Every name in the normalised list is non-blank and already in normal form. */
  lemma {:induction false} NormalizeListNormalized(xs: seq<string>)
    ensures forall k :: 0 <= k < |NormalizeList(xs)| ==> Normalize(NormalizeList(xs)[k]) == NormalizeList(xs)[k]
  {
    if xs != [] {
      NormalizeListNormalized(xs[..|xs| - 1]);
      NormalizeIdempotent(xs[|xs| - 1]);
    }
  }

  /** The normalised list is empty exactly when every configured name is all white space. */
  lemma {:induction false} NormalizeListEmpty(xs: seq<string>)
    ensures NormalizeList(xs) == [] <==> forall k :: 0 <= k < |xs| ==> Normalize(xs[k]) == ""
  {
    if xs != [] {
      var init := xs[..|xs| - 1];
      assert forall k :: 0 <= k < |init| ==> init[k] == xs[k];
      NormalizeListEmpty(init);
    }
  }

  /** With no blank name the normalised list is the names normalised one by one: nothing is dropped or merged. */
  lemma {:induction false} NormalizeListNoBlanks(xs: seq<string>)
    requires forall k :: 0 <= k < |xs| ==> Normalize(xs[k]) != ""
    ensures NormalizeList(xs) == seq(|xs|, k requires 0 <= k < |xs| => Normalize(xs[k]))
  {
    if xs != [] {
      var init := xs[..|xs| - 1];
      assert forall k :: 0 <= k < |init| ==> init[k] == xs[k];
      NormalizeListNoBlanks(init);
    }
  }

  /** A name is in the normalised list exactly when some configured name normalises to it and it is not blank. */
  lemma {:induction false} NormalizeListMembers(xs: seq<string>, n: string)
    ensures n in NormalizeList(xs) <==> n != "" && exists k :: 0 <= k < |xs| && Normalize(xs[k]) == n
  {
    if xs != [] {
      var init := xs[..|xs| - 1];
      assert forall k :: 0 <= k < |init| ==> init[k] == xs[k];
      NormalizeListMembers(init, n);
      if n != "" && Normalize(xs[|xs| - 1]) != n {
        if k :| 0 <= k < |xs| && Normalize(xs[k]) == n {
          assert k < |init| && Normalize(init[k]) == n;
        }
      }
    }
  }

  /** The names not in `drop`, in their order. */
  function Excluding(names: seq<string>, drop: seq<string>): (r: seq<string>)
    ensures |r| <= |names|
    ensures forall k :: 0 <= k < |r| ==> r[k] in names && r[k] !in drop
  {
    if names == [] then []
    else
      var init := Excluding(names[..|names| - 1], drop);
      var last := names[|names| - 1];
      assert forall k :: 0 <= k < |names| - 1 ==> names[..|names| - 1][k] == names[k];
      if last in drop then init else init + [last]
  }

  /**
   * The normalised list is the configured names normalised one by one with the
   * blank results filtered out, so `ExcludingExact` gives its order and counts.
   */
  lemma {:induction false} NormalizeListIsFilter(xs: seq<string>)
    ensures NormalizeList(xs) == Excluding(seq(|xs|, k requires 0 <= k < |xs| => Normalize(xs[k])), [""])
  {
    if xs != [] {
      var init := xs[..|xs| - 1];
      var m := seq(|xs|, k requires 0 <= k < |xs| => Normalize(xs[k]));
      assert m[..|m| - 1] == seq(|init|, k requires 0 <= k < |init| => Normalize(init[k]));
      NormalizeListIsFilter(init);
    }
  }

  /** `a` is `b` with some elements left out, the rest kept in order. */
  ghost predicate IsSubsequence(a: seq<string>, b: seq<string>)
    decreases |b|
  {
    if a == [] then true
    else if b == [] then false
    else
      (a[|a| - 1] == b[|b| - 1] && IsSubsequence(a[..|a| - 1], b[..|b| - 1]))
      || IsSubsequence(a, b[..|b| - 1])
  }

  /** Excluding keeps every occurrence of a kept name and none of a dropped one, in the original order. */
  lemma {:induction false} ExcludingExact(names: seq<string>, drop: seq<string>)
    ensures IsSubsequence(Excluding(names, drop), names)
    ensures forall n :: multiset(Excluding(names, drop))[n] == if n in drop then 0 else multiset(names)[n]
  {
    if names != [] {
      var init := names[..|names| - 1];
      var last := names[|names| - 1];
      assert names == init + [last];
      ExcludingExact(init, drop);
      var r := Excluding(names, drop);
      if last !in drop {
        assert r[..|r| - 1] == Excluding(init, drop);
      }
    }
  }

  /** Excluding nothing keeps every name. */
  lemma {:induction false} ExcludingNothing(names: seq<string>)
    ensures Excluding(names, []) == names
  {
    if names != [] {
      ExcludingNothing(names[..|names| - 1]);
    }
  }

  /** The selection `getEntryNameListInOrder` computes. */
  function EntryNameOrder(o: Converter, c: Container): (r: seq<string>)
    ensures NormalizeList(o.want) == [] ==>
      var dropped := NormalizeList(o.overwrite);
      && |dropped| <= |r| && r[|r| - |dropped|..] == dropped
      && forall k :: 0 <= k < |r| - |dropped| ==> r[k] in LoopNames(c) && r[k] !in dropped
  {
    var wanted := NormalizeList(o.want);
    if wanted != [] then wanted
    else
      var dropped := NormalizeList(o.overwrite);
      Excluding(LoopNames(c), dropped) + dropped
  }

  /** A non-empty normalised wanted list is the selection, whatever the overwrite list and the container hold. */
  lemma WantedOverrides(o: Converter, c: Container, overwrite: seq<string>, other: Container)
    requires NormalizeList(o.want) != []
    ensures EntryNameOrder(o, c) == NormalizeList(o.want)
    ensures EntryNameOrder(o.(overwrite := overwrite), other) == EntryNameOrder(o, c)
  {
  }

  /**
   * Without wanted names, a position holds an overwrite name exactly when it lies
   * in the trailing overwrite part, so every overwrite name comes after every
   * other name, and each normalised overwrite name occurs as often as it is configured.
   */
  lemma OverwriteLast(o: Converter, c: Container)
    requires NormalizeList(o.want) == []
    ensures var r := EntryNameOrder(o, c);
            var dropped := NormalizeList(o.overwrite);
            && (forall k :: 0 <= k < |r| ==> (r[k] in dropped <==> k >= |r| - |dropped|))
            && (forall n :: n in dropped ==> multiset(r)[n] == multiset(dropped)[n])
            && (forall n :: n !in dropped ==> multiset(r)[n] == multiset(LoopNames(c))[n])
  {
    var dropped := NormalizeList(o.overwrite);
    ExcludingExact(LoopNames(c), dropped);
    assert EntryNameOrder(o, c) == Excluding(LoopNames(c), dropped) + dropped;
  }

  /** Without wanted names the container names that are kept appear in enumeration order. */
  lemma KeptInLoopOrder(o: Converter, c: Container)
    requires NormalizeList(o.want) == []
    ensures var r := EntryNameOrder(o, c);
            IsSubsequence(r[..|r| - |NormalizeList(o.overwrite)|], LoopNames(c))
  {
    var dropped := NormalizeList(o.overwrite);
    ExcludingExact(LoopNames(c), dropped);
    var r := EntryNameOrder(o, c);
    assert r[..|r| - |dropped|] == Excluding(LoopNames(c), dropped);
  }

  /** `newMikrotikScript` never sets an overwrite list, so without wanted names every container name is selected, in order. */
  lemma FreshConverterSelectsAll(action: string, raw: RawConfig, c: Container)
    requires NormalizeList(raw.want) == []
    ensures EntryNameOrder(NewMikrotikScript(action, raw), c) == LoopNames(c)
  {
    ExcludingNothing(LoopNames(c));
  }

  /** `getEntryNameListInOrder`, with its three loops and the overwrite lookup map. */
  method GetEntryNameListInOrder(o: Converter, c: Container) returns (list: seq<string>)
    ensures list == EntryNameOrder(o, c)
  {
    var wantList: seq<string> := [];
    for i := 0 to |o.want|
      invariant wantList == NormalizeList(o.want[..i])
    {
      var want := Normalize(o.want[i]);
      assert o.want[..i + 1][..i] == o.want[..i];
      if want != "" {
        wantList := wantList + [want];
      }
    }
    assert o.want[..|o.want|] == o.want;
    if |wantList| > 0 {
      return wantList;
    }
    var overwriteList: seq<string> := [];
    var overwriteMap: map<string, bool> := map[];
    for i := 0 to |o.overwrite|
      invariant overwriteList == NormalizeList(o.overwrite[..i])
      invariant forall n :: n in overwriteMap <==> n in overwriteList
    {
      var overwrite := Normalize(o.overwrite[i]);
      assert o.overwrite[..i + 1][..i] == o.overwrite[..i];
      if overwrite != "" {
        overwriteList := overwriteList + [overwrite];
        overwriteMap := overwriteMap[overwrite := true];
      }
    }
    assert o.overwrite[..|o.overwrite|] == o.overwrite;
    list := [];
    for k := 0 to |c|
      invariant list == Excluding(LoopNames(c)[..k], overwriteList)
    {
      var name := c[k].name;
      assert LoopNames(c)[..k + 1][..k] == LoopNames(c)[..k];
      if name in overwriteMap {
        continue;
      }
      list := list + [name];
    }
    assert LoopNames(c)[..|c|] == LoopNames(c);
    list := list + overwriteList;
  }
}
