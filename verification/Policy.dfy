/** A nested settings policy as a value, with the dotted-path access of
  * `_dig` and `_set_path`. */
module Policy {
  import opened Wrappers

  datatype Scalar = Number(n: int) | Flag(b: bool) | Text(s: string)

  datatype Json = Leaf(value: Scalar) | Obj(fields: map<string, Json>)

  /** A dotted path, split at its dots; never empty. */
  type Path = p: seq<string> | p != [] witness [""]

  /** `_dig`; `None` is the KeyError or TypeError of a path that is not there. */
  function Dig(j: Json, path: seq<string>): Option<Json>
    decreases |path|
  {
    if path == [] then Some(j)
    else if j.Obj? && path[0] in j.fields then Dig(j.fields[path[0]], path[1..])
    else None
  }

  /** `_set_path`; an absent last key is added, an absent or scalar parent is an error. */
  function SetPath(j: Json, path: Path, v: Json): Option<Json>
    decreases |path|
  {
    if !j.Obj? then None
    else if |path| == 1 then Some(Obj(j.fields[path[0] := v]))
    else if path[0] !in j.fields then None
    else
      var child := SetPath(j.fields[path[0]], path[1..], v);
      if child.None? then None else Some(Obj(j.fields[path[0] := child.value]))
  }

  predicate IsObj(a: Option<Json>) { a.Some? && a.value.Obj? }

  predicate SameKeys(a: Option<Json>, b: Option<Json>) {
    IsObj(a) && IsObj(b) && a.value.fields.Keys == b.value.fields.Keys
  }

  predicate Comparable(p: seq<string>, q: seq<string>) { p <= q || q <= p }

  lemma TailPrefix(p: seq<string>, q: seq<string>)
    requires p != [] && q != []
    ensures p <= q <==> p[0] == q[0] && p[1..] <= q[1..]
  {
  }

  /** A write is read back at its path and beneath it. */
  lemma {:induction false} SetBeneath(j: Json, path: Path, v: Json, q: seq<string>)
    requires SetPath(j, path, v).Some? && path <= q
    ensures Dig(SetPath(j, path, v).value, q) == Dig(v, q[|path|..])
    decreases |path|
  {
    TailPrefix(path, q);
    if |path| > 1 {
      SetBeneath(j.fields[path[0]], path[1..], v, q[1..]);
      assert q[1..][|path| - 1..] == q[|path|..];
    }
  }

  /** A write leaves every path that is neither above nor below it as it was. */
  lemma {:induction false} SetApart(j: Json, path: Path, v: Json, q: seq<string>)
    requires SetPath(j, path, v).Some? && !Comparable(path, q)
    ensures Dig(SetPath(j, path, v).value, q) == Dig(j, q)
    decreases |path|
  {
    TailPrefix(path, q);
    TailPrefix(q, path);
    assert |path| == 1 ==> path[1..] == [];
    if path[0] == q[0] {
      SetApart(j.fields[path[0]], path[1..], v, q[1..]);
    }
  }

  /** Above a written path there are objects, before and after. */
  lemma {:induction false} SetAbove(j: Json, path: Path, v: Json, q: seq<string>)
    requires SetPath(j, path, v).Some? && q < path
    ensures IsObj(Dig(j, q)) && IsObj(Dig(SetPath(j, path, v).value, q))
    decreases |path|
  {
    if q != [] {
      TailPrefix(q, path);
      SetAbove(j.fields[path[0]], path[1..], v, q[1..]);
    }
  }

  /** Overwriting an existing path changes no key set above it. */
  lemma {:induction false} SetKeepsKeys(j: Json, path: Path, v: Json, q: seq<string>)
    requires SetPath(j, path, v).Some? && q < path && Dig(j, path).Some?
    ensures SameKeys(Dig(j, q), Dig(SetPath(j, path, v).value, q))
    decreases |path|
  {
    if q != [] {
      TailPrefix(q, path);
      SetKeepsKeys(j.fields[path[0]], path[1..], v, q[1..]);
    } else {
      assert path[0] in j.fields;
    }
  }

  /** Where the path exists, the write succeeds. */
  lemma {:induction false} SetSucceeds(j: Json, path: Path, v: Json)
    requires Dig(j, path).Some?
    ensures SetPath(j, path, v).Some?
    decreases |path|
  {
    if |path| > 1 {
      SetSucceeds(j.fields[path[0]], path[1..], v);
    }
  }

  // ----------------------------------------------------------------------
  // Several updates
  // ----------------------------------------------------------------------

  type Updates = seq<(Path, Scalar)>

  /** Updates that come from a dictionary: no path twice. */
  type DictUpdates = us: Updates |
    forall a, b :: 0 <= a < |us| && 0 <= b < |us| && a != b ==> us[a].0 != us[b].0
    witness []

  /** The loop of `_save_settings_revision` over the updates. */
  function SetAll(j: Json, us: Updates): Option<Json>
    decreases |us|
  {
    if us == [] then Some(j)
    else
      var next := SetPath(j, us[0].0, Leaf(us[0].1));
      if next.None? then None else SetAll(next.value, us[1..])
  }

  ghost predicate AllThere(j: Json, us: Updates) {
    forall i :: 0 <= i < |us| ==> Dig(j, us[i].0).Some?
  }

  ghost function Values(j: Json, us: Updates): seq<Json>
    requires AllThere(j, us)
  {
    seq(|us|, i requires 0 <= i < |us| => Dig(j, us[i].0).value)
  }

  /** No path of the update is a prefix of another. */
  ghost predicate PrefixFree(us: Updates) {
    forall a, b :: 0 <= a < |us| && 0 <= b < |us| && a != b ==> !(us[a].0 <= us[b].0)
  }

  ghost predicate Apart(us: Updates, q: seq<string>) {
    forall i :: 0 <= i < |us| ==> !Comparable(us[i].0, q)
  }

  ghost predicate Above(us: Updates, q: seq<string>) {
    exists i :: 0 <= i < |us| && q < us[i].0
  }

  /** The result equals the original except at the given paths, where it holds the new values. */
  ghost predicate EqualExceptAt(j: Json, j': Json, us: Updates) {
    && (forall i :: 0 <= i < |us| ==> Dig(j', us[i].0) == Some(Leaf(us[i].1)))
    && (forall q :: Apart(us, q) ==> Dig(j', q) == Dig(j, q))
    && (forall q :: Above(us, q) ==> SameKeys(Dig(j, q), Dig(j', q)))
  }

  /** The updates that follow the first are still prefix-free and their paths are still there. */
  lemma RestStands(j: Json, next: Json, us: Updates)
    requires us != [] && AllThere(j, us) && PrefixFree(us)
    requires SetPath(j, us[0].0, Leaf(us[0].1)) == Some(next)
    ensures AllThere(next, us[1..]) && PrefixFree(us[1..])
    ensures forall k :: 0 < k < |us| ==> !Comparable(us[0].0, us[k].0) && Dig(next, us[k].0) == Dig(j, us[k].0)
  {
    forall k | 0 < k < |us|
      ensures !Comparable(us[0].0, us[k].0) && Dig(next, us[k].0) == Dig(j, us[k].0)
    {
      assert !(us[0].0 <= us[k].0) && !(us[k].0 <= us[0].0);
      SetApart(j, us[0].0, Leaf(us[0].1), us[k].0);
    }
    assert forall i :: 0 <= i < |us| - 1 ==> us[1..][i] == us[i + 1];
  }

  /** A save of prefix-free existing paths changes exactly what it names. */
  lemma {:induction false} SetAllMeaning(j: Json, us: Updates)
    requires AllThere(j, us) && PrefixFree(us)
    ensures SetAll(j, us).Some? && EqualExceptAt(j, SetAll(j, us).value, us)
    decreases |us|
  {
    if us != [] {
      SetSucceeds(j, us[0].0, Leaf(us[0].1));
      var next := SetPath(j, us[0].0, Leaf(us[0].1)).value;
      RestStands(j, next, us);
      SetAllMeaning(next, us[1..]);
      ExceptAtFirst(j, next, SetAll(next, us[1..]).value, us);
    }
  }

  lemma ExceptAtFirst(j: Json, next: Json, last: Json, us: Updates)
    requires us != [] && AllThere(j, us) && PrefixFree(us)
    requires SetPath(j, us[0].0, Leaf(us[0].1)) == Some(next) && EqualExceptAt(next, last, us[1..])
    ensures EqualExceptAt(j, last, us)
  {
    forall i | 0 <= i < |us|
      ensures Dig(last, us[i].0) == Some(Leaf(us[i].1))
    {
      FirstHolds(j, next, last, us);
      LaterHolds(next, last, us, i);
    }
    forall q | Apart(us, q)
      ensures Dig(last, q) == Dig(j, q)
    {
      ApartAlong(j, next, last, us, q);
    }
    forall q | Above(us, q)
      ensures SameKeys(Dig(j, q), Dig(last, q))
    {
      var i :| 0 <= i < |us| && q < us[i].0;
      KeysAlong(j, next, last, us, q, i);
    }
  }

  lemma LaterHolds(next: Json, last: Json, us: Updates, i: nat)
    requires i < |us| && EqualExceptAt(next, last, us[1..])
    ensures i > 0 ==> Dig(last, us[i].0) == Some(Leaf(us[i].1))
  {
  }

  lemma ApartAlong(j: Json, next: Json, last: Json, us: Updates, q: seq<string>)
    requires us != [] && Apart(us, q)
    requires SetPath(j, us[0].0, Leaf(us[0].1)) == Some(next) && EqualExceptAt(next, last, us[1..])
    ensures Dig(last, q) == Dig(j, q)
  {
    assert forall k :: 0 <= k < |us| - 1 ==> us[1..][k] == us[k + 1];
    assert Apart(us[1..], q);
    SetApart(j, us[0].0, Leaf(us[0].1), q);
  }

  /** The first value is not touched by the later writes. */
  lemma FirstHolds(j: Json, next: Json, last: Json, us: Updates)
    requires us != [] && AllThere(j, us) && PrefixFree(us)
    requires SetPath(j, us[0].0, Leaf(us[0].1)) == Some(next) && EqualExceptAt(next, last, us[1..])
    ensures Dig(last, us[0].0) == Some(Leaf(us[0].1))
  {
    RestStands(j, next, us);
    SetBeneath(j, us[0].0, Leaf(us[0].1), us[0].0);
    assert forall k :: 0 <= k < |us| - 1 ==> us[1..][k] == us[k + 1];
    assert Dig(last, us[0].0) == Dig(next, us[0].0);
  }

  lemma KeysAlong(j: Json, next: Json, last: Json, us: Updates, q: seq<string>, i: nat)
    requires AllThere(j, us) && PrefixFree(us) && i < |us| && q < us[i].0
    requires SetPath(j, us[0].0, Leaf(us[0].1)) == Some(next) && EqualExceptAt(next, last, us[1..])
    ensures SameKeys(Dig(j, q), Dig(last, q))
  {
    RestStands(j, next, us);
    KeysFirst(j, next, us, q, i);
    KeysRest(next, last, us, q, i);
  }

  lemma KeysFirst(j: Json, next: Json, us: Updates, q: seq<string>, i: nat)
    requires AllThere(j, us) && PrefixFree(us) && i < |us| && q < us[i].0
    requires SetPath(j, us[0].0, Leaf(us[0].1)) == Some(next)
    ensures SameKeys(Dig(j, q), Dig(next, q))
  {
    if q < us[0].0 {
      SetKeepsKeys(j, us[0].0, Leaf(us[0].1), q);
    } else {
      assert !(us[0].0 <= us[i].0);
      assert !Comparable(us[0].0, q);
      SetApart(j, us[0].0, Leaf(us[0].1), q);
      DigAbove(j, q, us[i].0);
    }
  }

  lemma KeysRest(next: Json, last: Json, us: Updates, q: seq<string>, i: nat)
    requires PrefixFree(us) && i < |us| && q < us[i].0 && IsObj(Dig(next, q))
    requires EqualExceptAt(next, last, us[1..])
    ensures SameKeys(Dig(next, q), Dig(last, q))
  {
  }

  lemma {:induction false} DigAbove(j: Json, q: seq<string>, p: seq<string>)
    requires q < p && Dig(j, p).Some?
    ensures Dig(j, q).Some? && Dig(j, q).value.Obj?
    decreases |q|
  {
    if q != [] {
      assert q[0] == p[0] && q[1..] < p[1..] by {
        assert p[..|q|] == q;
      }
      DigAbove(j.fields[q[0]], q[1..], p[1..]);
    }
  }

  // ----------------------------------------------------------------------
  // Exactly when a save gets through its paths
  // ----------------------------------------------------------------------

  /** A scalar sits on the way to `p`. */
  ghost predicate Blocked(j: Json, p: seq<string>) {
    exists q :: q < p && Dig(j, q).Some? && Dig(j, q).value.Leaf?
  }

  lemma BlockedNotThere(j: Json, p: seq<string>)
    requires Blocked(j, p)
    ensures Dig(j, p).None?
  {
    if Dig(j, p).Some? {
      var q :| q < p && Dig(j, q).Some? && Dig(j, q).value.Leaf?;
      DigAbove(j, q, p);
    }
  }

  lemma StaysBlocked(j: Json, path: Path, v: Scalar, p: seq<string>)
    requires Blocked(j, p) && SetPath(j, path, Leaf(v)).Some?
    ensures Blocked(SetPath(j, path, Leaf(v)).value, p)
  {
    var j' := SetPath(j, path, Leaf(v)).value;
    var q :| q < p && Dig(j, q).Some? && Dig(j, q).value.Leaf?;
    if path <= q {
      SetBeneath(j, path, Leaf(v), path);
      assert path < p && Dig(j', path).value.Leaf?;
    } else if q < path {
      SetAbove(j, path, Leaf(v), q);
      assert false;
    } else {
      SetApart(j, path, Leaf(v), q);
    }
  }

  lemma {:induction false} AllStaysBlocked(j: Json, us: Updates, p: seq<string>)
    requires Blocked(j, p) && SetAll(j, us).Some?
    ensures Blocked(SetAll(j, us).value, p)
    decreases |us|
  {
    if us != [] {
      StaysBlocked(j, us[0].0, us[0].1, p);
      AllStaysBlocked(SetPath(j, us[0].0, Leaf(us[0].1)).value, us[1..], p);
    }
  }

  lemma {:induction false} PrefixBlocks(j: Json, us: Updates, a: nat, p: seq<string>)
    requires a < |us| && us[a].0 < p && SetAll(j, us).Some?
    ensures Blocked(SetAll(j, us).value, p)
    decreases |us|
  {
    var next := SetPath(j, us[0].0, Leaf(us[0].1)).value;
    if a == 0 {
      SetBeneath(j, us[0].0, Leaf(us[0].1), us[0].0);
      assert Dig(next, us[0].0).value.Leaf?;
      AllStaysBlocked(next, us[1..], p);
    } else {
      PrefixBlocks(next, us[1..], a - 1, p);
    }
  }

  /** The paths of a save that are all there before (`before`), can all be
    * written, and are all there afterwards (`after`). */
  ghost predicate GetsThrough(j: Json, us: Updates) {
    AllThere(j, us) && SetAll(j, us).Some? && AllThere(SetAll(j, us).value, us)
  }

  /** A save of distinct paths gets through exactly when every path exists and none is a prefix of another. */
  lemma GetsThroughIff(j: Json, us: DictUpdates)
    ensures GetsThrough(j, us) <==> AllThere(j, us) && PrefixFree(us)
  {
    if AllThere(j, us) && PrefixFree(us) {
      SetAllMeaning(j, us);
    } else if AllThere(j, us) && SetAll(j, us).Some? {
      var a, b :| 0 <= a < |us| && 0 <= b < |us| && a != b && us[a].0 <= us[b].0;
      assert us[a].0 < us[b].0;
      PrefixBlocks(j, us, a, us[b].0);
      BlockedNotThere(SetAll(j, us).value, us[b].0);
    }
  }
}
