/** The nested policy as mutable dictionaries: the loops of `_dig` and
  * `_set_path`, the deep copy, and the edit made before a revision is stored. */
module PolicyHeap {
  import opened Wrappers
  import opened Policy

  datatype Cell = Plain(s: Scalar) | Child(d: Dict)

  class Dict {
    var items: map<string, Cell>
    /** Every dictionary reachable from this one. */
    ghost var repr: set<Dict>

    constructor ()
      ensures items == map[] && repr == {this}
    {
      items, repr := map[], {this};
    }

    /** The dictionaries form a tree, as anything read from JSON does. */
    ghost predicate Valid()
      reads this, repr
      decreases repr
    {
      && this in repr
      && (forall k :: k in items && items[k].Child? ==>
            var c := items[k].d; c in repr && c.repr <= repr && this !in c.repr && c.Valid())
      && (forall k, l :: k in items && l in items && k != l && items[k].Child? && items[l].Child? ==>
            items[k].d.repr !! items[l].d.repr)
    }

    ghost function ToJson(): Json
      requires Valid()
      reads this, repr
      decreases repr
    {
      Obj(map k | k in items :: match items[k] case Plain(s) => Leaf(s) case Child(d) => d.ToJson())
    }
  }

  ghost predicate CellValid(c: Cell)
    reads if c.Child? then {c.d} + c.d.repr else {}
  {
    c.Child? ==> c.d.Valid()
  }

  ghost function CellJson(c: Cell): Json
    requires CellValid(c)
    reads if c.Child? then {c.d} + c.d.repr else {}
  {
    match c case Plain(s) => Leaf(s) case Child(d) => d.ToJson()
  }

  /** The dictionary at the end of a path that leads through dictionaries only. */
  ghost function Walk(d: Dict, path: seq<string>): (n: Option<Dict>)
    requires d.Valid()
    reads d, d.repr
    ensures n.Some? ==> n.value in d.repr
    decreases |path|
  {
    if path == [] then Some(d)
    else if path[0] in d.items && d.items[path[0]].Child? then Walk(d.items[path[0]].d, path[1..])
    else None
  }

  lemma {:induction false} WalkDigs(d: Dict, path: seq<string>)
    requires d.Valid()
    ensures Walk(d, path).Some? <==> IsObj(Dig(d.ToJson(), path))
    ensures Walk(d, path).Some? ==>
      var n := Walk(d, path).value;
      n in d.repr && n.repr <= d.repr && n.Valid() && Dig(d.ToJson(), path) == Some(n.ToJson())
    decreases |path|
  {
    if path != [] && path[0] in d.items && d.items[path[0]].Child? {
      WalkDigs(d.items[path[0]].d, path[1..]);
    }
  }

  lemma {:induction false} WalkLast(d: Dict, path: seq<string>, k: string)
    requires d.Valid() && Walk(d, path).Some?
    ensures
      var n := Walk(d, path).value;
      && Walk(d, path + [k]) == (if k in n.items && n.items[k].Child? then Some(n.items[k].d) else None)
      && Dig(d.ToJson(), path + [k]) ==
         (if k in n.items && CellValid(n.items[k]) then Some(CellJson(n.items[k])) else None)
    decreases |path|
  {
    if path == [] {
      assert path + [k] == [k];
    } else {
      WalkLast(d.items[path[0]].d, path[1..], k);
      assert (path + [k])[1..] == path[1..] + [k];
    }
  }

  // ----------------------------------------------------------------------
  // The loops
  // ----------------------------------------------------------------------

  ghost predicate In(policy: Dict, c: Cell)
    reads policy, policy.repr
  {
    c.Child? ==> c.d in policy.repr && c.d.repr <= policy.repr
  }

  /** The cell holds what the path leads to. */
  ghost predicate ReadCell(policy: Dict, path: seq<string>, c: Cell)
    requires policy.Valid()
    reads policy, policy.repr
  {
    && In(policy, c)
    && CellValid(c)
    && Dig(policy.ToJson(), path) == Some(CellJson(c))
    && (c.Child? ==> Walk(policy, path) == Some(c.d))
  }

  /** `_dig`; `None` is the KeyError or TypeError. */
  method DigPath(policy: Dict, path: Path) returns (r: Option<Cell>)
    requires policy.Valid()
    ensures r.None? ==> Dig(policy.ToJson(), path).None?
    ensures r.Some? ==> ReadCell(policy, path, r.value)
  {
    var node := Child(policy);
    for i := 0 to |path|
      invariant In(policy, node) && CellValid(node) && (node.Child? ==> Walk(policy, path) == Walk(node.d, path[i..]))
      invariant Dig(policy.ToJson(), path) == Dig(CellJson(node), path[i..])
    {
      assert path[i..] == [path[i]] + path[i + 1..];
      if node.Plain? || path[i] !in node.d.items {
        return None;
      }
      node := node.d.items[path[i]];
    }
    return Some(node);
  }

  twostate predicate Same(o: Dict)
    reads o
  {
    unchanged(o)
  }

  twostate lemma Untouched(d: Dict)
    requires old(d.Valid())
    requires forall o :: o in old(d.repr) ==> Same(o)
    ensures d.Valid() && d.ToJson() == old(d.ToJson())
  {
  }

  twostate lemma OthersStay(d: Dict, new key: string)
    requires old(d.Valid()) && key in d.items && d.items == old(d.items)[key := d.items[key]]
    requires forall k :: k in d.items && k != key && d.items[k].Child? ==>
      forall o :: o in old(d.items[k].d.repr) ==> Same(o)
    ensures forall k :: k in d.items && k != key && d.items[k].Child? ==>
      && d.items[k].d.Valid() && d.items[k].d.repr == old(d.items[k].d.repr)
      && d.items[k].d.ToJson() == old(d.items[k].d.ToJson())
  {
    forall k | k in d.items && k != key && d.items[k].Child?
      ensures d.items[k].d.Valid() && d.items[k].d.repr == old(d.items[k].d.repr)
      ensures d.items[k].d.ToJson() == old(d.items[k].d.ToJson())
    {
      Untouched(d.items[k].d);
    }
  }

  twostate lemma StillTree(d: Dict, new key: string)
    requires old(d.Valid()) && old(d.repr) <= d.repr
    requires key in d.items && d.items == old(d.items)[key := d.items[key]]
    requires CellValid(d.items[key])
    requires d.items[key].Child? ==> d.items[key].d.repr <= d.repr && d !in d.items[key].d.repr
    requires forall k :: k in d.items && k != key && d.items[k].Child? ==>
      && (forall o :: o in old(d.items[k].d.repr) ==> Same(o))
      && (d.items[key].Child? ==> d.items[k].d.repr !! d.items[key].d.repr)
    ensures d.Valid()
  {
    OthersStay(d, key);
  }

  twostate lemma FieldsAfter(d: Dict, new key: string)
    requires old(d.Valid()) && d.Valid() && key in d.items && d.items == old(d.items)[key := d.items[key]]
    requires forall k :: k in d.items && k != key && d.items[k].Child? ==>
      d.items[k].d.ToJson() == old(d.items[k].d.ToJson())
    ensures d.ToJson() == Obj(old(d.ToJson()).fields[key := CellJson(d.items[key])])
  {
    assert d.ToJson().fields == old(d.ToJson()).fields[key := CellJson(d.items[key])];
  }

  /** A dictionary with one key set, its other children untouched and apart from the new value. */
  twostate lemma KeySet(d: Dict, new key: string)
    requires old(d.Valid()) && old(d.repr) <= d.repr
    requires key in d.items && d.items == old(d.items)[key := d.items[key]]
    requires CellValid(d.items[key])
    requires d.items[key].Child? ==> d.items[key].d.repr <= d.repr && d !in d.items[key].d.repr
    requires forall k :: k in d.items && k != key && d.items[k].Child? ==>
      && (forall o :: o in old(d.items[k].d.repr) ==> Same(o))
      && (d.items[key].Child? ==> d.items[k].d.repr !! d.items[key].d.repr)
    ensures d.Valid() && d.ToJson() == Obj(old(d.ToJson()).fields[key := CellJson(d.items[key])])
  {
    OthersStay(d, key);
    StillTree(d, key);
    FieldsAfter(d, key);
  }

  /** The dictionary that a write along `path` changes. */
  ghost function Target(d: Dict, path: Path): Option<Dict>
    requires d.Valid()
    reads d, d.repr
  {
    Walk(d, path[..|path| - 1])
  }

  /** One write into the target and nothing else. */
  twostate predicate Written(d: Dict, path: Path, v: Scalar)
    requires old(d.Valid()) && old(Target(d, path)).Some?
    reads d, d.repr
  {
    var n := old(Target(d, path)).value;
    && d.repr == old(d.repr)
    && (forall o :: o in old(d.repr) && o != n ==> Same(o))
    && n.repr == old(n.repr)
    && n.items == old(n.items)[path[|path| - 1] := Plain(v)]
  }

  /** What one write into the target does to the whole tree. */
  twostate lemma {:induction false} WriteMeaning(d: Dict, new path: Path, new v: Scalar)
    requires old(d.Valid()) && old(Target(d, path)).Some? && Written(d, path, v)
    ensures d.Valid() && old(SetPath(d.ToJson(), path, Leaf(v))) == Some(d.ToJson())
    decreases |path|
  {
    if |path| > 1 {
      assert path[..|path| - 1][1..] == path[1..][..|path| - 2];
      WriteMeaning(d.items[path[0]].d, path[1..], v);
    }
    KeySet(d, path[0]);
  }

  /** The loop of `_set_path` over all parts but the last. */
  method FindTarget(policy: Dict, path: Path) returns (node: Option<Dict>)
    requires policy.Valid()
    ensures node.Some? ==> forall v :: SetPath(policy.ToJson(), path, v).Some?
    ensures node.None? ==> forall v :: SetPath(policy.ToJson(), path, v).None?
    ensures node.Some? ==> node == Target(policy, path)
  {
    var n := policy;
    for i := 0 to |path| - 1
      invariant Walk(policy, path[..i]) == Some(n)
      invariant n.Valid()
      invariant forall v :: SetPath(policy.ToJson(), path, v).Some? <==> SetPath(n.ToJson(), path[i..], v).Some?
    {
      WalkLast(policy, path[..i], path[i]);
      WalkDigs(policy, path[..i + 1]);
      assert path[..i] + [path[i]] == path[..i + 1];
      assert path[i..][1..] == path[i + 1..];
      if path[i] !in n.items || n.items[path[i]].Plain? {
        return None;
      }
      n := n.items[path[i]].d;
    }
    return Some(n);
  }

  /** `_set_path` with a scalar value; `ok` is false for its KeyError or TypeError. */
  method WritePath(policy: Dict, path: Path, v: Scalar) returns (ok: bool)
    requires policy.Valid()
    modifies policy.repr
    ensures policy.Valid() && policy.repr == old(policy.repr)
    ensures ok <==> old(SetPath(policy.ToJson(), path, Leaf(v))).Some?
    ensures ok ==> old(SetPath(policy.ToJson(), path, Leaf(v))) == Some(policy.ToJson())
    ensures !ok ==> unchanged(policy.repr)
    ensures ok ==> old(Target(policy, path)).Some? && Written(policy, path, v)
  {
    var node := FindTarget(policy, path);
    if node.None? {
      assert SetPath(policy.ToJson(), path, Leaf(v)).None?;
      return false;
    }
    assert SetPath(policy.ToJson(), path, Leaf(v)).Some?;
    var n := node.value;
    n.items := n.items[path[|path| - 1] := Plain(v)];
    WriteMeaning(policy, path, v);
    return true;
  }

  /** One key of a new dictionary, with a value that shares nothing with it. */
  method Attach(c: Dict, k: string, cell: Cell)
    requires c.Valid() && k !in c.items && CellValid(cell) && (cell.Child? ==> c.repr !! cell.d.repr)
    modifies c
    ensures c.Valid() && c.ToJson() == Obj(old(c.ToJson()).fields[k := old(CellJson(cell))])
    ensures c.items == old(c.items)[k := cell]
    ensures c.repr == old(c.repr) + if cell.Child? then cell.d.repr else {}
  {
    c.repr := c.repr + if cell.Child? then cell.d.repr else {};
    c.items := c.items[k := cell];
    KeySet(c, k);
  }

  function Only(fields: map<string, Json>, done: set<string>): map<string, Json> {
    map k | k in fields && k in done :: fields[k]
  }

  /** The dictionary `c` holds a copy of everything in `fields` but the keys still to come. */
  ghost predicate Copied(c: Dict, fields: map<string, Json>, keys: set<string>)
    reads c, c.repr
  {
    && c.Valid()
    && keys <= fields.Keys
    && c.ToJson() == Obj(Only(fields, fields.Keys - keys))
  }

  lemma OnlyMore(fields: map<string, Json>, keys: set<string>, k: string)
    requires keys <= fields.Keys && k in keys
    ensures Only(fields, fields.Keys - (keys - {k})) == Only(fields, fields.Keys - keys)[k := fields[k]]
  {
  }

  /** `deepcopy`: a tree of new dictionaries with the same contents. */
  method DeepCopy(d: Dict) returns (c: Dict)
    requires d.Valid()
    ensures c.Valid() && fresh(c.repr) && c.ToJson() == d.ToJson()
    decreases d.repr, 1
  {
    c := new Dict();
    ghost var fields := d.ToJson().fields;
    var keys := d.items.Keys;
    while keys != {}
      invariant fresh(c.repr) && Copied(c, fields, keys)
      decreases |keys|
    {
      var k :| k in keys;
      CopyKey(d.items[k], c, k, fields, keys);
      keys := keys - {k};
    }
  }

  method CopyKey(cell: Cell, c: Dict, k: string, ghost fields: map<string, Json>, ghost keys: set<string>)
    requires CellValid(cell) && Copied(c, fields, keys) && k in keys && CellJson(cell) == fields[k]
    requires cell.Child? ==> c !in cell.d.repr
    modifies c
    ensures fresh(c.repr - old(c.repr)) && Copied(c, fields, keys - {k})
    decreases if cell.Child? then cell.d.repr else {}, 2
  {
    OnlyMore(fields, keys, k);
    assert c.items.Keys == c.ToJson().fields.Keys;
    match cell
    case Plain(s) =>
      Attach(c, k, cell);
    case Child(e) =>
      var f := DeepCopy(e);
      Attach(c, k, Child(f));
  }

  // ----------------------------------------------------------------------
  // Several updates, and the values read before them
  // ----------------------------------------------------------------------

  /** The dictionaries of `c` are reached along `q` only. */
  ghost predicate Sheltered(d: Dict, q: seq<string>, c: Dict)
    requires d.Valid()
    reads d, d.repr, c
  {
    forall p :: Walk(d, p).Some? && Walk(d, p).value in c.repr ==> q <= p
  }

  lemma {:induction false} OnePath(d: Dict, q: seq<string>, p: seq<string>)
    requires d.Valid() && Walk(d, q).Some? && Walk(d, p).Some? && Walk(d, p).value in Walk(d, q).value.repr
    ensures q <= p
    decreases |q|
  {
    if q != [] {
      var c := d.items[q[0]].d;
      WalkDigs(c, q[1..]);
      if p != [] && p[0] == q[0] {
        OnePath(c, q[1..], p[1..]);
        assert q == [q[0]] + q[1..] && p == [p[0]] + p[1..];
      }
    }
  }

  /** Writing a scalar opens no new way to a dictionary. */
  twostate lemma {:induction false} WalkShrinks(d: Dict, new path: Path, new v: Scalar, new p: seq<string>)
    requires old(d.Valid()) && old(Target(d, path)).Some? && Written(d, path, v) && d.Valid()
    requires Walk(d, p).Some?
    ensures old(Walk(d, p)) == Walk(d, p)
    decreases |p|
  {
    if p != [] {
      var c := d.items[p[0]].d;
      if |path| > 1 && p[0] == path[0] {
        assert path[..|path| - 1][1..] == path[1..][..|path| - 2];
        WriteMeaning(c, path[1..], v);
        WalkShrinks(c, path[1..], v, p[1..]);
      } else {
        assert old(d.items[p[0]]) == d.items[p[0]];
        assert Same(c);
      }
    }
  }

  /** What was read at one path is not reached by a write at a path it is no prefix of. */
  twostate lemma StaysSheltered(d: Dict, new path: Path, new v: Scalar, new q: seq<string>, new c: Dict)
    requires old(d.Valid()) && old(Target(d, path)).Some? && Written(d, path, v) && d.Valid()
    requires old(allocated(c)) && old(c.Valid()) && old(c.repr) <= old(d.repr) && old(Sheltered(d, q, c)) && !(q < path)
    ensures c.Valid() && c.ToJson() == old(c.ToJson()) && c.repr == old(c.repr) && Sheltered(d, q, c)
  {
    assert path[..|path| - 1] < path;
    assert !(q <= path[..|path| - 1]);
    assert old(Target(d, path)).value !in old(c.repr);
    forall o | o in old(c.repr)
      ensures Same(o)
    {
      assert o in old(d.repr);
    }
    Untouched(c);
    forall p | Walk(d, p).Some? && Walk(d, p).value in c.repr
      ensures q <= p
    {
      WalkShrinks(d, path, v, p);
    }
  }

  ghost predicate ReadAt(policy: Dict, us: Updates, cells: seq<Cell>)
    requires policy.Valid()
    reads policy, policy.repr
  {
    |cells| <= |us| && forall i :: 0 <= i < |cells| ==> ReadCell(policy, us[i].0, cells[i])
  }

  /** The comprehension over `_dig`. */
  method DigAll(policy: Dict, us: Updates) returns (r: Option<seq<Cell>>)
    requires policy.Valid()
    ensures r.Some? <==> AllThere(policy.ToJson(), us)
    ensures r.Some? ==> |r.value| == |us| && ReadAt(policy, us, r.value)
  {
    var cells: seq<Cell> := [];
    for i := 0 to |us|
      invariant |cells| == i && ReadAt(policy, us, cells)
    {
      var cell := DigPath(policy, us[i].0);
      if cell.None? {
        return None;
      }
      cells := cells + [cell.value];
    }
    return Some(cells);
  }

  /** The values read before the writes, still standing while the writes go on. */
  ghost predicate Standing(policy: Dict, us: Updates, cells: seq<Cell>, values: seq<Json>)
    requires policy.Valid() && |cells| == |us| == |values|
    reads policy, policy.repr
  {
    forall i :: 0 <= i < |cells| ==>
      && In(policy, cells[i])
      && CellValid(cells[i])
      && CellJson(cells[i]) == values[i]
      && (cells[i].Child? ==> Sheltered(policy, us[i].0, cells[i].d))
  }

  twostate lemma StillStanding(new d: Dict, new us: Updates, new k: nat, cells: seq<Cell>, new values: seq<Json>)
    requires |cells| == |us| == |values| && k < |us| && PrefixFree(us)
    requires old(allocated(d)) && old(d.Valid()) && old(Target(d, us[k].0)).Some?
    requires Written(d, us[k].0, us[k].1) && d.Valid()
    requires old(Standing(d, us, cells, values))
    ensures Standing(d, us, cells, values)
  {
    forall i | 0 <= i < |cells|
      ensures In(d, cells[i]) && CellValid(cells[i]) && CellJson(cells[i]) == values[i]
      ensures cells[i].Child? ==> Sheltered(d, us[i].0, cells[i].d)
    {
      assert old(Standing(d, us, cells, values));
      if cells[i].Child? {
        assert i != k ==> !(us[i].0 <= us[k].0);
        StaysSheltered(d, us[k].0, us[k].1, us[i].0, cells[i].d);
      }
    }
  }

  lemma FoundSheltered(d: Dict, q: seq<string>)
    requires d.Valid() && Walk(d, q).Some?
    ensures Sheltered(d, q, Walk(d, q).value)
  {
    forall p | Walk(d, p).Some? && Walk(d, p).value in Walk(d, q).value.repr
      ensures q <= p
    {
      OnePath(d, q, p);
    }
  }

  lemma ReadIsStanding(policy: Dict, us: Updates, cells: seq<Cell>, values: seq<Json>)
    requires policy.Valid() && |cells| == |us| == |values| && ReadAt(policy, us, cells)
    requires forall i :: 0 <= i < |us| ==> Dig(policy.ToJson(), us[i].0) == Some(values[i])
    ensures Standing(policy, us, cells, values)
  {
    forall i | 0 <= i < |cells| && cells[i].Child?
      ensures Sheltered(policy, us[i].0, cells[i].d)
    {
      assert ReadCell(policy, us[i].0, cells[i]);
      FoundSheltered(policy, us[i].0);
    }
  }

  /** The loop over `_set_path`. The cells read before it keep their values unless one path leads
    * below another, in which case the save fails in the end. */
  method WriteAll(policy: Dict, us: Updates, ghost cells: seq<Cell>, ghost values: seq<Json>) returns (ok: bool)
    requires policy.Valid() && |cells| == |us| == |values| && Standing(policy, us, cells, values)
    modifies policy.repr
    ensures policy.Valid() && policy.repr == old(policy.repr)
    ensures ok <==> old(SetAll(policy.ToJson(), us)).Some?
    ensures ok ==> old(SetAll(policy.ToJson(), us)) == Some(policy.ToJson())
    ensures ok && PrefixFree(us) ==> Standing(policy, us, cells, values)
  {
    for k := 0 to |us|
      invariant policy.Valid() && policy.repr == old(policy.repr)
      invariant SetAll(policy.ToJson(), us[k..]) == old(SetAll(policy.ToJson(), us))
      invariant PrefixFree(us) ==> Standing(policy, us, cells, values)
    {
      assert us[k..] == [us[k]] + us[k + 1..];
      label before:
      ok := WritePath(policy, us[k].0, us[k].1);
      if !ok {
        return;
      }
      if PrefixFree(us) {
        StillStanding@before(policy, us, k, cells, values);
      }
    }
    ok := true;
  }

  // ----------------------------------------------------------------------
  // Storing the edited policy
  // ----------------------------------------------------------------------

  /** The JSON value a row or an audit record stores. */
  method Encode(d: Dict) returns (j: Json)
    requires d.Valid()
    ensures j == d.ToJson()
    decreases d.repr, 0
  {
    ghost var all := d.ToJson().fields;
    var fields: map<string, Json> := map[];
    var keys := d.items.Keys;
    while keys != {}
      invariant keys <= all.Keys && fields == Only(all, all.Keys - keys)
      decreases |keys|
    {
      var k :| k in keys;
      var value := EncodeCell(d.items[k]);
      OnlyMore(all, keys, k);
      fields := fields[k := value];
      keys := keys - {k};
    }
    return Obj(fields);
  }

  method EncodeCell(c: Cell) returns (j: Json)
    requires CellValid(c)
    ensures j == CellJson(c)
    decreases if c.Child? then c.d.repr else {}, 1
  {
    match c
    case Plain(s) => j := Leaf(s);
    case Child(d) => j := Encode(d);
  }

  method EncodeAll(policy: Dict, us: Updates, cells: seq<Cell>, ghost values: seq<Json>) returns (js: seq<Json>)
    requires policy.Valid() && |cells| == |us| == |values| && Standing(policy, us, cells, values)
    ensures js == values
  {
    js := [];
    for i := 0 to |cells|
      invariant js == values[..i]
    {
      var j := EncodeCell(cells[i]);
      js := js + [j];
    }
  }

  // ----------------------------------------------------------------------
  // The edit as a whole
  // ----------------------------------------------------------------------

  /** The working copy of a save, the cells read in it before the writes, and its JSON after them. */
  datatype Draft = Draft(policy: Dict, before: seq<Cell>, sent: Json)

  /** What an edit of the policy `was` leaves for the rest of the save. */
  ghost predicate Edited(d: Draft, was: Json, us: Updates)
    reads d.policy, d.policy.repr
  {
    && AllThere(was, us)
    && SetAll(was, us) == Some(d.sent)
    && d.policy.Valid()
    && d.policy.ToJson() == d.sent
    && |d.before| == |us|
    && (PrefixFree(us) ==> Standing(d.policy, us, d.before, Values(was, us)))
  }

  /** Copying the policy, reading the old values and writing the new ones, all in the copy. */
  method Edit(loaded: Dict, us: Updates) returns (d: Option<Draft>)
    requires loaded.Valid()
    ensures d.Some? <==> AllThere(loaded.ToJson(), us) && SetAll(loaded.ToJson(), us).Some?
    ensures d.Some? ==> fresh(d.value.policy.repr) && Edited(d.value, loaded.ToJson(), us)
  {
    var policy := DeepCopy(loaded);
    var before := DigAll(policy, us);
    if before.None? {
      return None;
    }
    var sent := Rewrite(policy, us, before.value);
    if sent.None? {
      return None;
    }
    return Some(Draft(policy, before.value, sent.value));
  }

  method Rewrite(policy: Dict, us: Updates, before: seq<Cell>) returns (sent: Option<Json>)
    requires policy.Valid() && |before| == |us| && ReadAt(policy, us, before) && AllThere(policy.ToJson(), us)
    modifies policy.repr
    ensures policy.repr == old(policy.repr)
    ensures sent.Some? <==> old(SetAll(policy.ToJson(), us)).Some?
    ensures sent.Some? ==> Edited(Draft(policy, before, sent.value), old(policy.ToJson()), us)
  {
    ghost var values := Values(policy.ToJson(), us);
    ReadIsStanding(policy, us, before, values);
    var written := WriteAll(policy, us, before, values);
    if !written {
      return None;
    }
    var json := Encode(policy);
    return Some(json);
  }

  /** Reading the new values and writing both lists out for the audit record. */
  method Report(d: Draft, us: DictUpdates, ghost was: Json) returns (r: Option<(seq<Json>, seq<Json>)>)
    requires Edited(d, was, us)
    ensures r.Some? <==> AllThere(d.sent, us)
    ensures r.Some? ==> r.value == (Values(was, us), Values(d.sent, us))
  {
    var after := DigAll(d.policy, us);
    GetsThroughIff(was, us);
    if after.None? {
      return None;
    }
    ReadIsStanding(d.policy, us, after.value, Values(d.sent, us));
    var olds := EncodeAll(d.policy, us, d.before, Values(was, us));
    var news := EncodeAll(d.policy, us, after.value, Values(d.sent, us));
    return Some((olds, news));
  }
}
