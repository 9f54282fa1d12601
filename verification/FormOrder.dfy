/** Map iteration order does not matter, and what nesting arrays directly loses. */
module FormOrder {
  import opened Text
  import opened FormData
  import opened FormRoundTrip

  /** The same JSON value, visited with the fields of any of its objects in another order. */
  ghost predicate SameTree(v: Json, w: Json) {
    match (v, w)
    case (Obj(fs), Obj(gs)) =>
      && |fs| == |gs| && DistinctKeys(fs) && DistinctKeys(gs)
      && forall i :: 0 <= i < |fs| ==>
        exists j :: 0 <= j < |gs| && fs[i].key == gs[j].key && SameTree(fs[i].value, gs[j].value)
    case (Arr(xs), Arr(ys)) => |xs| == |ys| && forall i :: 0 <= i < |xs| ==> SameTree(xs[i], ys[i])
    case _ => v == w
  }

  /** Both fail, or both succeed with the same entries in some order. */
  ghost predicate SameData(a: Result<seq<string>>, b: Result<seq<string>>) {
    (a.Err? && b.Err?) || (a.Ok? && b.Ok? && multiset(a.value) == multiset(b.value))
  }

  lemma SameAppend(a: Result<seq<string>>, b: Result<seq<string>>, a': Result<seq<string>>, b': Result<seq<string>>)
    requires SameData(a, a') && SameData(b, b')
    ensures SameData(Append(a, b), Append(a', b'))
  {
  }

  lemma {:induction false} FieldDataSame(keyname: string, v: Json, w: Json, q: Query)
    requires SameTree(v, w)
    ensures SameData(FieldData(keyname, v, q), FieldData(keyname, w, q))
    decreases v, 1
  {
    match v
    case Obj(fs) => MapDataSame(fs, w.fields, keyname, -1, q);
    case Arr(xs) => ArrayDataSame(xs, w.items, keyname, q);
    case _ =>
  }

  lemma {:induction false} ArrayDataSame(xs: seq<Json>, ys: seq<Json>, parent: string, q: Query)
    requires SameTree(Arr(xs), Arr(ys))
    ensures SameData(ArrayData(xs, parent, q), ArrayData(ys, parent, q))
    decreases xs, 2
  {
    ItemsDataSame(xs, ys, parent, -1, q);
    SameAppend(Ok(seq(|xs|, _ => "")), ItemsData(xs, parent, -1, q),
               Ok(seq(|ys|, _ => "")), ItemsData(ys, parent, -1, q));
  }

  lemma {:induction false} ItemsDataSame(xs: seq<Json>, ys: seq<Json>, parent: string, index: int, q: Query)
    requires |xs| == |ys| && forall i :: 0 <= i < |xs| ==> SameTree(xs[i], ys[i])
    ensures SameData(ItemsData(xs, parent, index, q), ItemsData(ys, parent, index, q))
    decreases xs, 1
  {
    if xs != [] {
      var x, y := xs[0], ys[0];
      assert SameTree(x, y);
      var next := if x.Obj? then index + 1 else index;
      if x.Obj? {
        MapDataSame(x.fields, y.fields, parent, index + 1, q);
      } else {
        ItemDataSame(x, y, parent, q);
      }
      ItemsDataSame(xs[1..], ys[1..], parent, next, q);
      SameAppend(HeadData(x, parent, index, q), ItemsData(xs[1..], parent, next, q),
                 HeadData(y, parent, index, q), ItemsData(ys[1..], parent, next, q));
    }
  }

  lemma {:induction false} ItemDataSame(x: Json, y: Json, parent: string, q: Query)
    requires SameTree(x, y) && !x.Obj?
    ensures SameData(ItemData(x, parent, q), ItemData(y, parent, q))
    decreases x, 0
  {
    match x
    case Arr(inner) => ArrayDataSame(inner, y.items, parent, q);
    case _ =>
  }

  lemma {:induction false} MapDataSame(fs: seq<Field>, gs: seq<Field>, parent: string, index: int, q: Query)
    requires SameTree(Obj(fs), Obj(gs))
    ensures SameData(MapData(fs, parent, index, q), MapData(gs, parent, index, q))
    decreases fs, 0
  {
    if fs != [] {
      var j :| 0 <= j < |gs| && fs[0].key == gs[j].key && SameTree(fs[0].value, gs[j].value);
      var others := gs[..j] + gs[j + 1..];
      OthersSame(fs, gs, j);
      FieldDataSame(KeyName(parent, index, fs[0].key), fs[0].value, gs[j].value, q);
      MapDataSame(fs[1..], others, parent, index, q);
      MapDataPick(gs, j, parent, index, q);
      SameAppend(FieldData(KeyName(parent, index, fs[0].key), fs[0].value, q),
                 MapData(fs[1..], parent, index, q),
                 FieldData(KeyName(parent, index, gs[j].key), gs[j].value, q),
                 MapData(others, parent, index, q));
    }
  }

  /** Removing a matched field on both sides leaves two presentations of one smaller object. */
  lemma OthersSame(fs: seq<Field>, gs: seq<Field>, j: nat)
    requires fs != [] && SameTree(Obj(fs), Obj(gs)) && j < |gs| && fs[0].key == gs[j].key
    ensures SameTree(Obj(fs[1..]), Obj(gs[..j] + gs[j + 1..]))
  {
    var others := gs[..j] + gs[j + 1..];
    forall i | 0 <= i < |fs[1..]|
      ensures exists k :: 0 <= k < |others| && fs[1..][i].key == others[k].key
                          && SameTree(fs[1..][i].value, others[k].value)
    {
      var k :| 0 <= k < |gs| && fs[i + 1].key == gs[k].key && SameTree(fs[i + 1].value, gs[k].value);
      assert fs[0].key != fs[i + 1].key;
      var k' := if k < j then k else k - 1;
      assert others[k'] == gs[k];
    }
    assert forall a, b :: 0 <= a < b < |others| ==>
      others[a] == gs[if a < j then a else a + 1] && others[b] == gs[if b < j then b else b + 1];
  }

  /** One field of an object may as well be visited first. */
  lemma {:induction false} MapDataPick(gs: seq<Field>, j: nat, parent: string, index: int, q: Query)
    requires j < |gs|
    ensures SameData(MapData(gs, parent, index, q),
                     Append(FieldData(KeyName(parent, index, gs[j].key), gs[j].value, q),
                            MapData(gs[..j] + gs[j + 1..], parent, index, q)))
  {
    if j == 0 {
      assert gs[..0] + gs[1..] == gs[1..];
    } else {
      MapDataPick(gs[1..], j - 1, parent, index, q);
      var others := gs[..j] + gs[j + 1..];
      assert others[1..] == gs[1..][..j - 1] + gs[1..][j..];
      assert gs[1..][j - 1] == gs[j] && others[0] == gs[0];
      var first := FieldData(KeyName(parent, index, gs[0].key), gs[0].value, q);
      var picked := FieldData(KeyName(parent, index, gs[j].key), gs[j].value, q);
      var rest := MapData(others[1..], parent, index, q);
      assert SameData(MapData(gs[1..], parent, index, q), Append(picked, rest));
      SameAppend(first, MapData(gs[1..], parent, index, q), first, Append(picked, rest));
      assert SameData(Append(first, Append(picked, rest)), Append(picked, Append(first, rest)));
    }
  }

  lemma {:induction false} CleanSame(a: seq<string>, b: seq<string>)
    requires multiset(a) == multiset(b)
    ensures multiset(Clean(a)) == multiset(Clean(b))
  {
    if a == [] {
      assert |multiset(b)| == 0;
    } else {
      var j := PermutationTail(a, b);
      var l, r := b[..j], b[j + 1..];
      CleanSame(a[1..], l + r);
      CleanConcat(l, r);
      CleanConcat(l + [b[j]], r);
      CleanConcat(l, [b[j]]);
      assert Clean([b[j]]) == CleanOne(a[0]);
    }
  }

  /** Whatever orders the maps are visited in, the outcome is the same list of entries up to order. */
  lemma OrderIndependent(v: Json, w: Json, q: Query)
    requires SameTree(v, w)
    ensures SameData(FormEntries(v, q), FormEntries(w, q))
  {
    if v.Obj? {
      MapDataSame(v.fields, w.fields, "", -1, q);
      var a, b := MapData(v.fields, "", -1, q), MapData(w.fields, "", -1, q);
      if a.Ok? {
        CleanSame(a.value, b.value);
      }
    }
  }

  // ---------------------------------------------------------------------------
  // Arrays nested directly
  // ---------------------------------------------------------------------------

  /** The scalars and the objects of a list in order, through directly nested lists, each object with
      its number. The numbering starts again in every nested list. */
  function Numbered(items: seq<Json>, index: int): seq<(Json, int)> {
    if items == [] then [] else
    match items[0]
    case Obj(_) => [(items[0], index + 1)] + Numbered(items[1..], index + 1)
    case Arr(inner) => Numbered(inner, -1) + Numbered(items[1..], index)
    case _ => [(items[0], 0)] + Numbered(items[1..], index)
  }

  function PairsData(pairs: seq<(Json, int)>, parent: string, q: Query): Result<seq<string>> {
    if pairs == [] then Ok([])
    else Append(HeadData(pairs[0].0, parent, pairs[0].1 - 1, q), PairsData(pairs[1..], parent, q))
  }

  function Cleaned(r: Result<seq<string>>): Result<seq<string>> {
    if r.Err? then Err else Ok(Clean(r.value))
  }

  lemma CleanedAppend(a: Result<seq<string>>, b: Result<seq<string>>)
    ensures Cleaned(Append(a, b)) == Append(Cleaned(a), Cleaned(b))
  {
    if a.Ok? && b.Ok? {
      CleanConcat(a.value, b.value);
    }
  }

  lemma {:induction false} PairsDataConcat(ps: seq<(Json, int)>, rs: seq<(Json, int)>, parent: string, q: Query)
    ensures PairsData(ps + rs, parent, q) == Append(PairsData(ps, parent, q), PairsData(rs, parent, q))
  {
    if ps == [] {
      assert ps + rs == rs;
      AppendNothing(PairsData(rs, parent, q));
    } else {
      TailOfConcat(ps, rs);
      PairsDataConcat(ps[1..], rs, parent, q);
      AppendAssociative(HeadData(ps[0].0, parent, ps[0].1 - 1, q), PairsData(ps[1..], parent, q),
                        PairsData(rs, parent, q));
    }
  }

  lemma CleanedArray(items: seq<Json>, parent: string, q: Query)
    ensures Cleaned(ArrayData(items, parent, q)) == Cleaned(ItemsData(items, parent, -1, q))
  {
    CleanedAppend(Ok(seq(|items|, _ => "")), ItemsData(items, parent, -1, q));
    CleanBlanks(|items|);
    AppendNothing(Cleaned(ItemsData(items, parent, -1, q)));
  }

  lemma {:induction false} ItemsArePairs(items: seq<Json>, parent: string, index: int, q: Query)
    ensures Cleaned(ItemsData(items, parent, index, q)) == Cleaned(PairsData(Numbered(items, index), parent, q))
    decreases items
  {
    if items != [] {
      var item, rest := items[0], items[1..];
      if item.Arr? {
        var ps, rs := Numbered(item.items, -1), Numbered(rest, index);
        ItemsArePairs(item.items, parent, -1, q);
        ItemsArePairs(rest, parent, index, q);
        CleanedArray(item.items, parent, q);
        CleanedAppend(ArrayData(item.items, parent, q), ItemsData(rest, parent, index, q));
        PairsDataConcat(ps, rs, parent, q);
        CleanedAppend(PairsData(ps, parent, q), PairsData(rs, parent, q));
      } else {
        HeadIsPair(item, rest, parent, index, q);
        var next := if item.Obj? then index + 1 else index;
        ItemsArePairs(rest, parent, next, q);
        CleanedAppend(HeadData(item, parent, index, q), ItemsData(rest, parent, next, q));
        CleanedAppend(HeadData(item, parent, index, q), PairsData(Numbered(rest, next), parent, q));
      }
    }
  }

  lemma HeadIsPair(item: Json, rest: seq<Json>, parent: string, index: int, q: Query)
    requires !item.Arr?
    ensures var items, next := [item] + rest, if item.Obj? then index + 1 else index;
      && PairsData(Numbered(items, index), parent, q)
         == Append(HeadData(item, parent, index, q), PairsData(Numbered(rest, next), parent, q))
      && ItemsData(items, parent, index, q)
         == Append(HeadData(item, parent, index, q), ItemsData(rest, parent, next, q))
  {
    var items, next := [item] + rest, if item.Obj? then index + 1 else index;
    assert items[1..] == rest;
    var pairs := Numbered(items, index);
    assert pairs[1..] == Numbered(rest, next);
  }

  /** The form data of a list depends on that numbered list alone, wherever the list is a field. */
  lemma SameNumberedSameForm(fields: seq<Field>, k: nat, xs: seq<Json>, ys: seq<Json>, q: Query)
    requires k < |fields| && fields[k].value == Arr(xs) && Numbered(xs, -1) == Numbered(ys, -1)
    ensures FormEntries(Obj(fields), q) == FormEntries(Obj(fields[k := Field(fields[k].key, Arr(ys))]), q)
  {
    OneListReplaced(fields, k, xs, ys, q);
  }

  lemma {:induction false} OneListReplaced(fields: seq<Field>, k: nat, xs: seq<Json>, ys: seq<Json>, q: Query)
    requires k < |fields| && fields[k].value == Arr(xs) && Numbered(xs, -1) == Numbered(ys, -1)
    ensures Cleaned(MapData(fields, "", -1, q))
         == Cleaned(MapData(fields[k := Field(fields[k].key, Arr(ys))], "", -1, q))
  {
    var others := fields[k := Field(fields[k].key, Arr(ys))];
    var key := fields[0].key;
    CleanedAppend(FieldData(key, fields[0].value, q), MapData(fields[1..], "", -1, q));
    CleanedAppend(FieldData(key, others[0].value, q), MapData(others[1..], "", -1, q));
    if k == 0 {
      assert others[1..] == fields[1..];
      CleanedArray(xs, key, q);
      CleanedArray(ys, key, q);
      ItemsArePairs(xs, key, -1, q);
      ItemsArePairs(ys, key, -1, q);
    } else {
      assert others[1..] == fields[1..][k - 1 := Field(fields[k].key, Arr(ys))];
      OneListReplaced(fields[1..], k - 1, xs, ys, q);
    }
  }

  /** Directly nested lists, spread out. */
  function Flat(items: seq<Json>): seq<Json> {
    if items == [] then []
    else if items[0].Arr? then Flat(items[0].items) + Flat(items[1..])
    else [items[0]] + Flat(items[1..])
  }

  predicate NoNestedObjects(items: seq<Json>) {
    forall i :: 0 <= i < |items| && items[i].Arr? ==> AllScalars(Flat(items[i].items))
  }

  lemma {:induction false} NumberedScalars(scalars: seq<Json>, rest: seq<Json>, index: int)
    requires AllScalars(scalars)
    ensures Numbered(scalars + rest, index) == Numbered(scalars, -1) + Numbered(rest, index)
  {
    if scalars == [] {
      assert scalars + rest == rest;
    } else {
      TailOfConcat(scalars, rest);
      NumberedScalars(scalars[1..], rest, index);
      NumberedScalars(scalars[1..], [], -1);
      Associative([(scalars[0], 0)], Numbered(scalars[1..], -1), Numbered(rest, index));
    }
  }

  lemma ScalarsOfConcat(a: seq<Json>, b: seq<Json>)
    requires AllScalars(a + b)
    ensures AllScalars(a) && AllScalars(b)
  {
    assert forall i :: 0 <= i < |a| ==> a[i] == (a + b)[i];
    assert forall i :: 0 <= i < |b| ==> b[i] == (a + b)[|a| + i];
  }

  lemma {:induction false} ScalarsHoldNoObjects(items: seq<Json>)
    requires AllScalars(Flat(items))
    ensures NoNestedObjects(items) && forall i :: 0 <= i < |items| ==> !items[i].Obj?
  {
    if items != [] {
      var head := if items[0].Arr? then Flat(items[0].items) else [items[0]];
      ScalarsOfConcat(head, Flat(items[1..]));
      ScalarsHoldNoObjects(items[1..]);
      assert !items[0].Arr? ==> head[0] == items[0];
      assert forall i :: 1 <= i < |items| ==> items[i] == items[1..][i - 1];
    }
  }

  lemma {:induction false} FlatNumbered(items: seq<Json>, index: int)
    requires NoNestedObjects(items)
    ensures Numbered(Flat(items), index) == Numbered(items, index)
    decreases items
  {
    if items != [] {
      var rest := items[1..];
      assert forall i :: 0 <= i < |rest| ==> rest[i] == items[i + 1];
      if items[0].Arr? {
        var inner := items[0].items;
        ScalarsHoldNoObjects(inner);
        FlatNumbered(inner, -1);
        FlatNumbered(rest, index);
        NumberedScalars(Flat(inner), Flat(rest), index);
      } else {
        FlatNumbered(rest, if items[0].Obj? then index + 1 else index);
        assert Flat(items)[1..] == Flat(rest);
      }
    }
  }

  /** A list whose nested lists hold no object has the form data of the flat list, so no decoder can
      tell them apart: the round trip cannot extend to arrays nested directly. */
  lemma NestedArraysFlatten(fields: seq<Field>, k: nat, items: seq<Json>, q: Query)
    requires k < |fields| && fields[k].value == Arr(items) && NoNestedObjects(items)
    ensures FormEntries(Obj(fields), q) == FormEntries(Obj(fields[k := Field(fields[k].key, Arr(Flat(items)))]), q)
  {
    FlatNumbered(items, -1);
    SameNumberedSameForm(fields, k, items, Flat(items), q);
  }
}
