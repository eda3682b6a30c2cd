/** Merging SGPIO manifests: recursive object merge, named-list merge, and whole manifests. */
module ManifestMerge {
  import opened Bytes

  /** Values a manifest file can hold. */
  datatype Json =
    | Null | Bool(b: bool) | Int(n: int) | Float(r: real) | Str(s: string)
    | List(items: seq<Json>) | Obj(fields: map<string, Json>)

  type JsonMap = map<string, Json>

  /** Merge `y` into `x`: objects field by field, everything else replaced. */
  function Merge(x: Json, y: Json): Json
    decreases y
  {
    if x.Obj? && y.Obj? then
      Obj(map k | k in x.fields.Keys + y.fields.Keys ::
        if k !in y.fields then x.fields[k]
        else if k !in x.fields then y.fields[k]
        else Merge(x.fields[k], y.fields[k]))
    else y
  }

  /** The source's loop: start from a copy of `a`, then visit the fields of `b` in any order. */
  method DeepMerge(a: JsonMap, b: JsonMap) returns (out: JsonMap)
    ensures Obj(out) == Merge(Obj(a), Obj(b))
    decreases Obj(b)
  {
    out := a;
    var todo := b.Keys;
    while todo != {}
      invariant todo <= b.Keys
      invariant out.Keys == a.Keys + (b.Keys - todo)
      invariant forall k :: k in out ==>
                  out[k] == if k !in b || k in todo then a[k] else if k !in a then b[k] else Merge(a[k], b[k])
    {
      var key :| key in todo;
      var bVal := b[key];
      if key in out && out[key].Obj? && bVal.Obj? {
        var merged := DeepMerge(out[key].fields, bVal.fields);
        out := out[key := Obj(merged)];
      } else {
        out := out[key := bVal];
      }
      todo := todo - {key};
    }
    assert Obj(out).fields == Merge(Obj(a), Obj(b)).fields;
  }

  lemma {:induction false} MergeSelf(x: Json)
    ensures Merge(x, x) == x
  {
    if x.Obj? {
      forall k | k in x.fields ensures Merge(x.fields[k], x.fields[k]) == x.fields[k] { MergeSelf(x.fields[k]); }
      assert Merge(x, x).fields == x.fields;
    }
  }

  /** Everything `x` says about objects, `z` says too. */
  ghost predicate Within(x: Json, z: Json) {
    x.Obj? && z.Obj? ==> forall k :: k in x.fields ==> k in z.fields && Within(x.fields[k], z.fields[k])
  }

  /** An overlay hides what it is merged into exactly when it repeats its structure. */
  lemma {:induction false} MergeAbsorbs(x: Json, z: Json)
    ensures Merge(x, z) == z <==> Within(x, z)
  {
    if x.Obj? && z.Obj? {
      forall k | k in x.fields && k in z.fields
        ensures Merge(x.fields[k], z.fields[k]) == z.fields[k] <==> Within(x.fields[k], z.fields[k])
      {
        MergeAbsorbs(x.fields[k], z.fields[k]);
      }
      var m := Merge(x, z).fields;
      if Within(x, z) {
        assert m == z.fields;
      }
      if Merge(x, z) == z {
        forall k | k in x.fields ensures k in z.fields && Within(x.fields[k], z.fields[k]) {
          assert k in m;
          assert m[k] == Merge(x.fields[k], z.fields[k]);
        }
      }
    }
  }

  // ---- what is found at every path of a merged value ----

  /** The value at a path of keys, if there is one. */
  function At(j: Json, path: seq<string>): Option<Json> {
    if path == [] then Some(j)
    else if j.Obj? && path[0] in j.fields then At(j.fields[path[0]], path[1..])
    else None
  }

  /** `j` has a say at a path: it has a value there, or a plain value above it. */
  predicate Decides(j: Json, path: seq<string>) {
    path == [] || !j.Obj? || (path[0] in j.fields && Decides(j.fields[path[0]], path[1..]))
  }

  /** At every path, a plain value is found in the merge exactly when the overlay has it there, or the
      overlay has no say there and the base has it. */
  lemma {:induction false} MergeAtPath(x: Json, y: Json, path: seq<string>, v: Json)
    requires !v.Obj?
    ensures At(Merge(x, y), path) == Some(v) <==>
            if Decides(y, path) then At(y, path) == Some(v) else At(x, path) == Some(v)
    decreases path
  {
    if path != [] && y.Obj? && path[0] in y.fields {
      if x.Obj? && path[0] in x.fields {
        MergeAtPath(x.fields[path[0]], y.fields[path[0]], path[1..], v);
      } else {
        UndecidedIsAbsent(y.fields[path[0]], path[1..]);
      }
    }
  }

  lemma {:induction false} UndecidedIsAbsent(j: Json, path: seq<string>)
    ensures !Decides(j, path) ==> At(j, path) == None
    decreases path
  {
    if path != [] && j.Obj? && path[0] in j.fields {
      UndecidedIsAbsent(j.fields[path[0]], path[1..]);
    }
  }

  /** No plain value in `y` stands between an object in `x` and an object in `z` that does not cover it. */
  ghost predicate Regroups(x: Json, y: Json, z: Json) {
    z.Obj? ==>
      if y.Obj? then
        x.Obj? ==> forall k :: k in x.fields && k in y.fields && k in z.fields ==>
                     Regroups(x.fields[k], y.fields[k], z.fields[k])
      else Within(x, z)
  }

  /** Overlays can be merged in either grouping exactly under that condition. */
  lemma {:induction false} MergeAssociatesIff(x: Json, y: Json, z: Json)
    ensures Merge(Merge(x, y), z) == Merge(x, Merge(y, z)) <==> Regroups(x, y, z)
    decreases z
  {
    if z.Obj? {
      if !y.Obj? {
        MergeAbsorbs(x, z);
      } else if x.Obj? {
        var l, r := Merge(Merge(x, y), z).fields, Merge(x, Merge(y, z)).fields;
        assert l.Keys == r.Keys;
        forall k | k in l
          ensures l[k] == r[k] <==>
                  (k in x.fields && k in y.fields && k in z.fields ==> Regroups(x.fields[k], y.fields[k], z.fields[k]))
        {
          if k in x.fields && k in y.fields && k in z.fields {
            MergeAssociatesIff(x.fields[k], y.fields[k], z.fields[k]);
            assert l[k] == Merge(Merge(x.fields[k], y.fields[k]), z.fields[k]);
            assert r[k] == Merge(x.fields[k], Merge(y.fields[k], z.fields[k]));
          }
        }
        if Regroups(x, y, z) {
          assert l == r;
        }
        if l == r {
          forall k | k in x.fields && k in y.fields && k in z.fields
            ensures Regroups(x.fields[k], y.fields[k], z.fields[k])
          {
            assert k in l;
          }
        }
      }
    }
  }

  // ---- lists of named entries ----

  /** The name of an entry, if it has one that is a string. */
  function Name(item: Json, key: string): Option<string> {
    if item.Obj? && key in item.fields && item.fields[key].Str? then Some(item.fields[key].s) else None
  }

  function Names(items: seq<Json>, key: string): (ns: seq<Option<string>>)
    ensures |ns| == |items|
  {
    seq(|items|, i requires 0 <= i < |items| => Name(items[i], key))
  }

  predicate AllObjects(items: seq<Json>) {
    forall i :: 0 <= i < |items| ==> items[i].Obj?
  }

  ghost predicate UniqueNames(items: seq<Json>, key: string) {
    forall i, j :: 0 <= i < j < |items| && Name(items[i], key).Some? ==> Name(items[i], key) != Name(items[j], key)
  }

  /** The position of a named entry, or the length. */
  function Find(items: seq<Json>, key: string, n: string): (i: nat)
    ensures i <= |items|
    ensures i < |items| ==> Name(items[i], key) == Some(n)
    ensures forall k :: 0 <= k < i ==> Name(items[k], key) != Some(n)
  {
    if items == [] || Name(items[0], key) == Some(n) then 0 else 1 + Find(items[1..], key, n)
  }

  /** The base pass: first string-named entry of each name; the rest is dropped. */
  function Kept(base: seq<Json>, key: string): seq<Json> {
    if base == [] then []
    else
      var kept, item := Kept(base[..|base| - 1], key), base[|base| - 1];
      var name := Name(item, key);
      if name.None? || Find(kept, key, name.value) < |kept| then kept else kept + [item]
  }

  /** One step of the override pass: merge into the entry of that name, or append. */
  function Placed(result: seq<Json>, key: string, item: Json): seq<Json> {
    var name := Name(item, key);
    if name.None? then result + [item]
    else
      var i := Find(result, key, name.value);
      if i < |result| then result[i := Merge(result[i], item)] else result + [item]
  }

  function PlacedAll(result: seq<Json>, key: string, items: seq<Json>): seq<Json> {
    if items == [] then result
    else Placed(PlacedAll(result, key, items[..|items| - 1]), key, items[|items| - 1])
  }

  function MergeLists(base: seq<Json>, override: seq<Json>, key: string): seq<Json> {
    PlacedAll(Kept(base, key), key, override)
  }

  /** The index dictionary finds exactly the string-named entries of the result. */
  ghost predicate Indexed(index: map<string, nat>, result: seq<Json>, key: string) {
    && AllObjects(result) && UniqueNames(result, key)
    && (forall n :: n in index ==> index[n] < |result| && Name(result[index[n]], key) == Some(n))
    && (forall i :: 0 <= i < |result| && Name(result[i], key).Some? ==> Name(result[i], key).value in index)
  }

  lemma {:induction false} FindInUnique(items: seq<Json>, key: string, i: nat)
    requires i < |items| && UniqueNames(items, key) && Name(items[i], key).Some?
    ensures Find(items, key, Name(items[i], key).value) == i
  {
    var k := Find(items, key, Name(items[i], key).value);
  }

  lemma {:induction false} MergeKeepsName(old_: Json, item: Json, key: string)
    requires old_.Obj? && Name(item, key).Some?
    ensures Merge(old_, item).Obj? && Name(Merge(old_, item), key) == Name(item, key)
  {}

  lemma {:induction false} IndexDecides(index: map<string, nat>, result: seq<Json>, key: string, n: string)
    requires Indexed(index, result, key)
    ensures n in index <==> Find(result, key, n) < |result|
    ensures n in index ==> index[n] == Find(result, key, n)
  {
    if n in index {
      FindInUnique(result, key, index[n]);
    }
    var i := Find(result, key, n);
    assert i < |result| ==> Name(result[i], key).value in index;
  }

  lemma {:induction false} IndexAppends(index: map<string, nat>, result: seq<Json>, key: string, item: Json)
    requires Indexed(index, result, key) && item.Obj?
    requires Name(item, key).Some? ==> Name(item, key).value !in index
    ensures var name := Name(item, key);
            Indexed(if name.Some? then index[name.value := |result|] else index, result + [item], key)
  {
    forall i | 0 <= i < |result| && Name(result[i], key).Some? ensures Name(result[i], key) != Name(item, key) {
      assert Name(result[i], key).value in index;
    }
  }

  lemma {:induction false} IndexSurvivesMerge(index: map<string, nat>, result: seq<Json>, key: string, n: string,
                                              merged: Json)
    requires Indexed(index, result, key) && n in index && merged.Obj? && Name(merged, key) == Some(n)
    ensures Indexed(index, result[index[n] := merged], key)
  {
    var r := result[index[n] := merged];
    forall i | 0 <= i < |r| ensures Name(r[i], key) == Name(result[i], key) {}
  }

  /** One base entry: kept when it is the first of its name. */
  method KeepOne(result: seq<Json>, index: map<string, nat>, key: string, item: Json)
    returns (result': seq<Json>, index': map<string, nat>)
    requires Indexed(index, result, key) && item.Obj?
    ensures Indexed(index', result', key)
    ensures var name := Name(item, key);
            result' == if name.Some? && Find(result, key, name.value) == |result| then result + [item] else result
  {
    result', index' := result, index;
    var name := Name(item, key);
    if name.Some? {
      IndexDecides(index, result, key, name.value);
      if name.value !in index {
        IndexAppends(index, result, key, item);
        result', index' := result + [item], index[name.value := |result|];
      }
    }
  }

  /** First pass over the base list; an entry that is not an object raises an exception. */
  method KeepBase(base: seq<Json>, key: string) returns (ok: bool, result: seq<Json>, index: map<string, nat>)
    ensures ok <==> AllObjects(base)
    ensures ok ==> result == Kept(base, key) && Indexed(index, result, key)
  {
    result, index := [], map[];
    for j := 0 to |base|
      invariant AllObjects(base[..j]) && result == Kept(base[..j], key) && Indexed(index, result, key)
    {
      if !base[j].Obj? {
        return false, [], map[];
      }
      assert base[..j + 1][..j] == base[..j];
      result, index := KeepOne(result, index, key, base[j]);
    }
    assert base[..|base|] == base;
    ok := true;
  }

  /** One override entry. */
  method Place(result: seq<Json>, index: map<string, nat>, key: string, item: Json)
    returns (result': seq<Json>, index': map<string, nat>)
    requires Indexed(index, result, key) && item.Obj?
    ensures result' == Placed(result, key, item) && Indexed(index', result', key)
  {
    var name := Name(item, key);
    if name.None? {
      IndexAppends(index, result, key, item);
      return result + [item], index;
    }
    IndexDecides(index, result, key, name.value);
    if name.value in index {
      var i := index[name.value];
      MergeKeepsName(result[i], item, key);
      var merged := DeepMerge(result[i].fields, item.fields);
      IndexSurvivesMerge(index, result, key, name.value, Obj(merged));
      return result[i := Obj(merged)], index;
    }
    IndexAppends(index, result, key, item);
    result', index' := result + [item], index[name.value := |result|];
  }

  /** Both passes; `None` when an entry is not an object, which the tool answers with an exception. */
  method MergeNamedList(base: seq<Json>, override: seq<Json>, key: string) returns (r: Option<seq<Json>>)
    ensures r == if AllObjects(base) && AllObjects(override) then Some(MergeLists(base, override, key)) else None
  {
    var ok, result, index := KeepBase(base, key);
    if !ok {
      return None;
    }
    for j := 0 to |override|
      invariant AllObjects(override[..j])
      invariant result == PlacedAll(Kept(base, key), key, override[..j]) && Indexed(index, result, key)
    {
      if !override[j].Obj? {
        return None;
      }
      assert override[..j + 1][..j] == override[..j];
      result, index := Place(result, index, key, override[j]);
    }
    assert override[..|override|] == override;
    r := Some(result);
  }

  // ---- what the list merge yields ----

  /** Names in the order they first appear; nameless entries each count. */
  function AddName(ns: seq<Option<string>>, n: Option<string>): seq<Option<string>> {
    if n.Some? && n in ns then ns else ns + [n]
  }

  function AddNames(ns: seq<Option<string>>, more: seq<Option<string>>): seq<Option<string>> {
    if more == [] then ns else AddName(AddNames(ns, more[..|more| - 1]), more[|more| - 1])
  }

  lemma {:induction false} FindIsIn(items: seq<Json>, key: string, n: string)
    ensures Find(items, key, n) < |items| <==> Some(n) in Names(items, key)
  {
    var i := Find(items, key, n);
    if i < |items| {
      assert Names(items, key)[i] == Some(n);
    }
  }

  lemma {:induction false} PlacedNames(result: seq<Json>, key: string, item: Json)
    requires AllObjects(result) && item.Obj?
    ensures Names(Placed(result, key, item), key) == AddName(Names(result, key), Name(item, key))
    ensures AllObjects(Placed(result, key, item))
  {
    var name := Name(item, key);
    if name.Some? {
      FindIsIn(result, key, name.value);
      var i := Find(result, key, name.value);
      if i < |result| {
        MergeKeepsName(result[i], item, key);
        var r := result[i := Merge(result[i], item)];
        assert Names(r, key) == Names(result, key);
      } else {
        assert Names(result + [item], key) == Names(result, key) + [name];
      }
    } else {
      assert Names(result + [item], key) == Names(result, key) + [name];
    }
  }

  /** Order and uniqueness: base names first, then new ones in the order they first appear. */
  lemma {:induction false} MergedNames(result: seq<Json>, key: string, items: seq<Json>)
    requires AllObjects(result) && AllObjects(items)
    ensures AllObjects(PlacedAll(result, key, items))
    ensures Names(PlacedAll(result, key, items), key) == AddNames(Names(result, key), Names(items, key))
  {
    if items != [] {
      var init := items[..|items| - 1];
      MergedNames(result, key, init);
      PlacedNames(PlacedAll(result, key, init), key, items[|items| - 1]);
      assert Names(items, key)[..|items| - 1] == Names(init, key);
    }
  }

  /** The left fold of `Merge` over the entries of one name. */
  function Folded(items: seq<Json>, key: string, n: string): Option<Json> {
    if items == [] then None
    else
      var before, item := Folded(items[..|items| - 1], key, n), items[|items| - 1];
      if Name(item, key) != Some(n) then before
      else if before.None? then Some(item)
      else Some(Merge(before.value, item))
  }

  function Lookup(items: seq<Json>, key: string, n: string): Option<Json> {
    var i := Find(items, key, n);
    if i < |items| then Some(items[i]) else None
  }

  lemma {:induction false} PlacedLookup(result: seq<Json>, key: string, item: Json, n: string)
    requires AllObjects(result) && item.Obj?
    ensures Lookup(Placed(result, key, item), key, n)
            == if Name(item, key) != Some(n) then Lookup(result, key, n)
               else if Lookup(result, key, n).None? then Some(item)
               else Some(Merge(Lookup(result, key, n).value, item))
  {
    var name := Name(item, key);
    var r := Placed(result, key, item);
    var i, j := Find(result, key, n), Find(r, key, n);
    if name.Some? && Find(result, key, name.value) < |result| {
      MergeKeepsName(result[Find(result, key, name.value)], item, key);
      forall k | 0 <= k < |result| ensures Name(r[k], key) == Name(result[k], key) {}
    } else {
      assert r == result + [item] && r[|result|] == item;
      forall k | 0 <= k < |result| ensures r[k] == result[k] {}
      assert i < |result| ==> r[i] == result[i];
    }
  }

  /** Values: every name's entry is the left fold of its entries, kept base first, overrides in order. */
  lemma {:induction false} MergedValues(result: seq<Json>, key: string, items: seq<Json>, n: string)
    requires AllObjects(result) && AllObjects(items)
    requires Folded(result, key, n) == Lookup(result, key, n)
    ensures Lookup(PlacedAll(result, key, items), key, n) == Folded(result + items, key, n)
  {
    if items == [] {
      assert result + items == result;
    } else {
      var init := items[..|items| - 1];
      MergedValues(result, key, init, n);
      MergedNames(result, key, init);
      PlacedLookup(PlacedAll(result, key, init), key, items[|items| - 1], n);
      assert (result + items)[..|result + items| - 1] == result + init;
    }
  }

  lemma {:induction false} KeptIsUnique(base: seq<Json>, key: string)
    requires AllObjects(base)
    ensures AllObjects(Kept(base, key)) && UniqueNames(Kept(base, key), key)
    ensures forall n :: n in Names(Kept(base, key), key) <==> n.Some? && n in Names(base, key)
  {
    if base != [] {
      var init, item := base[..|base| - 1], base[|base| - 1];
      var kept, name := Kept(init, key), Name(item, key);
      KeptIsUnique(init, key);
      assert Names(base, key) == Names(init, key) + [name];
      if name.Some? {
        FindIsIn(kept, key, name.value);
        if Kept(base, key) != kept {
          assert Names(kept + [item], key) == Names(kept, key) + [name];
          forall i | 0 <= i < |kept| ensures Name(kept[i], key) != name {
            assert Names(kept, key)[i] == Name(kept[i], key);
          }
        }
      }
    }
  }

  lemma {:induction false} UniqueFolds(items: seq<Json>, key: string, n: string)
    requires UniqueNames(items, key)
    ensures Folded(items, key, n) == Lookup(items, key, n)
  {
    if items != [] {
      var init, last := items[..|items| - 1], items[|items| - 1];
      UniqueFolds(init, key, n);
      var i, j := Find(items, key, n), Find(init, key, n);
      assert j < |init| ==> Name(items[j], key) == Some(n);
      assert i < |init| ==> Name(init[i], key) == Some(n);
    }
  }

  /** The entries without a string name. */
  function Nameless(items: seq<Json>, key: string): seq<Json> {
    if items == [] then []
    else
      var last := items[|items| - 1];
      Nameless(items[..|items| - 1], key) + if Name(last, key).None? then [last] else []
  }

  lemma {:induction false} NamelessAppend(items: seq<Json>, key: string, item: Json)
    ensures Nameless(items + [item], key) == Nameless(items, key) + if Name(item, key).None? then [item] else []
  {
    assert (items + [item])[..|items|] == items;
  }

  lemma {:induction false} NamelessUpdate(items: seq<Json>, key: string, i: nat, item: Json)
    requires i < |items| && Name(items[i], key).Some? && Name(item, key).Some?
    ensures Nameless(items[i := item], key) == Nameless(items, key)
  {
    var n := |items| - 1;
    if i < n {
      assert items[i := item][..n] == items[..n][i := item];
      NamelessUpdate(items[..n], key, i, item);
    } else {
      assert items[i := item][..n] == items[..n];
    }
  }

  lemma {:induction false} PlacedNameless(result: seq<Json>, key: string, items: seq<Json>)
    requires AllObjects(result) && AllObjects(items)
    ensures Nameless(PlacedAll(result, key, items), key) == Nameless(result, key) + Nameless(items, key)
  {
    if items != [] {
      var init, item := items[..|items| - 1], items[|items| - 1];
      PlacedNameless(result, key, init);
      MergedNames(result, key, init);
      OnePlacedNameless(PlacedAll(result, key, init), key, item);
    }
  }

  lemma {:induction false} OnePlacedNameless(result: seq<Json>, key: string, item: Json)
    requires AllObjects(result) && item.Obj?
    ensures Nameless(Placed(result, key, item), key)
            == Nameless(result, key) + if Name(item, key).None? then [item] else []
  {
    var name := Name(item, key);
    NamelessAppend(result, key, item);
    if name.Some? {
      var i := Find(result, key, name.value);
      if i < |result| {
        MergeKeepsName(result[i], item, key);
        NamelessUpdate(result, key, i, Merge(result[i], item));
      }
    }
  }

  lemma {:induction false} KeptAreNamed(base: seq<Json>, key: string)
    ensures Nameless(Kept(base, key), key) == []
  {
    if base != [] {
      var init := base[..|base| - 1];
      KeptAreNamed(init, key);
      NamelessAppend(Kept(init, key), key, base[|base| - 1]);
    }
  }

  /** No string name twice. */
  ghost predicate NoneTwice(ns: seq<Option<string>>) {
    forall i, j :: 0 <= i < j < |ns| && ns[i].Some? ==> ns[i] != ns[j]
  }

  lemma {:induction false} AddNamesOnce(ns: seq<Option<string>>, more: seq<Option<string>>)
    requires NoneTwice(ns)
    ensures NoneTwice(AddNames(ns, more))
  {
    if more != [] {
      AddNamesOnce(ns, more[..|more| - 1]);
    }
  }

  lemma {:induction false} UniqueByNames(items: seq<Json>, key: string)
    ensures UniqueNames(items, key) <==> NoneTwice(Names(items, key))
  {
    var ns := Names(items, key);
    assert forall i :: 0 <= i < |items| ==> ns[i] == Name(items[i], key);
  }

  /** The whole contract of the list merge. Names: the kept base names in order, then new names as
      they first appear, none twice. Values: the left fold of that name's kept base entry and its
      override entries. Entries without a name: those of the override, in order. */
  lemma {:induction false} NamedListMerge(base: seq<Json>, override: seq<Json>, key: string)
    requires AllObjects(base) && AllObjects(override)
    ensures var result := MergeLists(base, override, key);
            && Names(result, key) == AddNames(Names(Kept(base, key), key), Names(override, key))
            && UniqueNames(result, key)
            && (forall n :: Lookup(result, key, n) == Folded(Kept(base, key) + override, key, n))
            && Nameless(result, key) == Nameless(override, key)
  {
    KeptIsUnique(base, key);
    MergedNames(Kept(base, key), key, override);
    UniqueByNames(Kept(base, key), key);
    AddNamesOnce(Names(Kept(base, key), key), Names(override, key));
    UniqueByNames(MergeLists(base, override, key), key);
    forall n ensures Lookup(MergeLists(base, override, key), key, n) == Folded(Kept(base, key) + override, key, n) {
      UniqueFolds(Kept(base, key), key, n);
      MergedValues(Kept(base, key), key, override, n);
    }
    KeptAreNamed(base, key);
    PlacedNameless(Kept(base, key), key, override);
  }

  // ---- an overlay's list over a base list ----

  /** Of each name the base pass keeps the first entry. */
  lemma {:induction false} KeptIsFirst(base: seq<Json>, key: string, n: string)
    ensures Lookup(Kept(base, key), key, n) == Lookup(base, key, n)
  {
    if base != [] {
      var init, item := base[..|base| - 1], base[|base| - 1];
      KeptIsFirst(init, key, n);
      LookupAppend(init, item, key, n);
      LookupAppend(Kept(init, key), item, key, n);
      assert base == init + [item];
    }
  }

  lemma {:induction false} LookupAppend(items: seq<Json>, item: Json, key: string, n: string)
    ensures Lookup(items + [item], key, n)
            == if Lookup(items, key, n).Some? then Lookup(items, key, n)
               else if Name(item, key) == Some(n) then Some(item)
               else None
  {
    var all := items + [item];
    assert all[|items|] == item;
    forall k | 0 <= k < |items| ensures all[k] == items[k] {}
    var i, j := Find(items, key, n), Find(all, key, n);
    assert i < |items| ==> all[i] == items[i];
  }

  /** What overlay entries of name `n`, one after the other, make of the entry there is. */
  function Overlaid(start: Option<Json>, items: seq<Json>, key: string, n: string): Option<Json> {
    if items == [] then start
    else
      var before, item := Overlaid(start, items[..|items| - 1], key, n), items[|items| - 1];
      if Name(item, key) != Some(n) then before
      else if before.None? then Some(item)
      else Some(Merge(before.value, item))
  }

  lemma {:induction false} FoldedIsOverlaid(base: seq<Json>, items: seq<Json>, key: string, n: string)
    ensures Folded(base + items, key, n) == Overlaid(Folded(base, key, n), items, key, n)
  {
    if items == [] {
      assert base + items == base;
    } else {
      FoldedIsOverlaid(base, items[..|items| - 1], key, n);
      assert (base + items)[..|base + items| - 1] == base + items[..|items| - 1];
    }
  }

  /** With distinct names that is one merge, base under overlay. */
  lemma {:induction false} OverlaidOnce(start: Option<Json>, items: seq<Json>, key: string, n: string)
    requires UniqueNames(items, key)
    ensures Overlaid(start, items, key, n)
            == var over := Lookup(items, key, n);
               if over.None? then start else if start.None? then over else Some(Merge(start.value, over.value))
  {
    if items != [] {
      var init, item := items[..|items| - 1], items[|items| - 1];
      OverlaidOnce(start, init, key, n);
      LookupAppend(init, item, key, n);
      assert items == init + [item];
      if Name(item, key) == Some(n) { NewName(init, item, key); }
    }
  }

  /** The entries that have a name. */
  function Named(items: seq<Json>, key: string): seq<Json> {
    if items == [] then []
    else
      var last := items[|items| - 1];
      Named(items[..|items| - 1], key) + if Name(last, key).Some? then [last] else []
  }

  lemma {:induction false} KeptOfDistinct(base: seq<Json>, key: string)
    requires UniqueNames(base, key)
    ensures Kept(base, key) == Named(base, key)
  {
    if base != [] {
      var init, item := base[..|base| - 1], base[|base| - 1];
      KeptOfDistinct(init, key);
      assert base == init + [item];
      if Name(item, key).Some? {
        NewName(init, item, key);
        KeptIsFirst(init, key, Name(item, key).value);
      }
    }
  }

  /** The names of `more` that `ns` does not have, and the nameless entries. */
  function NewNames(ns: seq<Option<string>>, more: seq<Option<string>>): seq<Option<string>> {
    if more == [] then []
    else
      var last := more[|more| - 1];
      NewNames(ns, more[..|more| - 1]) + if last.Some? && last in ns then [] else [last]
  }

  lemma {:induction false} AddedAreNew(ns: seq<Option<string>>, more: seq<Option<string>>)
    requires NoneTwice(more)
    ensures AddNames(ns, more) == ns + NewNames(ns, more)
    ensures forall n :: n in NewNames(ns, more) ==> n in more
  {
    if more != [] {
      var init, last := more[..|more| - 1], more[|more| - 1];
      AddedAreNew(ns, init);
      assert last.Some? ==> forall i :: 0 <= i < |init| ==> init[i] == more[i] != last;
      assert NewNames(ns, more) == NewNames(ns, init) + if last.Some? && last in ns then [] else [last];
    }
  }

  /** What `items` is, as the merge of two lists of named objects. */
  ghost predicate OverlaidList(base: seq<Json>, over: seq<Json>, items: seq<Json>, key: string) {
    && UniqueNames(items, key) && Nameless(items, key) == Nameless(over, key)
    && (forall n :: Lookup(items, key, n) == Overlaid(Lookup(base, key, n), over, key, n))
    && (UniqueNames(over, key) ==> forall n :: Lookup(items, key, n) == Joined(base, over, key, n))
    && (UniqueNames(base, key) && UniqueNames(over, key) ==>
         var ns := Names(Named(base, key), key);
         Names(items, key) == ns + NewNames(ns, Names(over, key)))
  }

  /** The base's entry of a name under the overlay's, or the only one there is. */
  function Joined(base: seq<Json>, over: seq<Json>, key: string, n: string): Option<Json> {
    var b, o := Lookup(base, key, n), Lookup(over, key, n);
    if o.None? then b else if b.None? then o else Some(Merge(b.value, o.value))
  }

  lemma {:induction false} ListsAreOverlaid(base: seq<Json>, over: seq<Json>, key: string)
    requires AllObjects(base) && AllObjects(over)
    ensures OverlaidList(base, over, MergeLists(base, over, key), key)
  {
    var items := MergeLists(base, over, key);
    NamedListMerge(base, over, key);
    KeptIsUnique(base, key);
    forall n ensures Lookup(items, key, n) == Overlaid(Lookup(base, key, n), over, key, n) {
      FoldedIsOverlaid(Kept(base, key), over, key, n);
      UniqueFolds(Kept(base, key), key, n);
      KeptIsFirst(base, key, n);
    }
    if UniqueNames(over, key) {
      forall n ensures Lookup(items, key, n) == Joined(base, over, key, n) {
        OverlaidOnce(Lookup(base, key, n), over, key, n);
      }
      if UniqueNames(base, key) {
        KeptOfDistinct(base, key);
        UniqueByNames(over, key);
        AddedAreNew(Names(Named(base, key), key), Names(over, key));
      }
    }
  }

  /** A base list whose entries all have distinct string names is kept as it is. */
  lemma {:induction false} KeptIsAll(base: seq<Json>, key: string)
    requires UniqueNames(base, key) && forall i :: 0 <= i < |base| ==> Name(base[i], key).Some?
    ensures Kept(base, key) == base
  {
    if base != [] {
      var init, last := base[..|base| - 1], base[|base| - 1];
      KeptIsAll(init, key);
      NewName(init, last, key);
      assert base == init + [last];
    }
  }

  lemma {:induction false} NewName(init: seq<Json>, last: Json, key: string)
    requires Name(last, key).Some? && UniqueNames(init + [last], key)
    ensures Find(init, key, Name(last, key).value) == |init|
  {
    var all := init + [last];
    assert all[|init|] == last;
    forall i | 0 <= i < |init| ensures Name(init[i], key) != Name(last, key) {
      assert all[i] == init[i];
    }
  }

  // ---- merging a list with itself ----

  /** Entries without a string name come after all named ones. */
  ghost predicate NamelessLast(items: seq<Json>, key: string) {
    forall i, j :: 0 <= i < j < |items| && Name(items[i], key).None? ==> Name(items[j], key).None?
  }

  function NamedCount(items: seq<Json>, key: string): (m: nat)
    ensures m <= |items|
    ensures forall i :: 0 <= i < m ==> Name(items[i], key).Some?
    ensures m < |items| ==> Name(items[m], key).None?
  {
    if items == [] || Name(items[0], key).None? then 0 else 1 + NamedCount(items[1..], key)
  }

  lemma {:induction false} KeptOfTail(items: seq<Json>, key: string, m: nat)
    requires m <= |items| && forall i :: m <= i < |items| ==> Name(items[i], key).None?
    ensures Kept(items, key) == Kept(items[..m], key)
  {
    if m == |items| {
      assert items[..m] == items;
    } else {
      var init := items[..|items| - 1];
      KeptOfTail(init, key, m);
      assert init[..m] == items[..m];
    }
  }

  lemma {:induction false} PlaceAgain(items: seq<Json>, key: string, i: nat)
    requires i < |items| && UniqueNames(items, key) && Name(items[i], key).Some?
    ensures Placed(items, key, items[i]) == items
  {
    FindInUnique(items, key, i);
    MergeSelf(items[i]);
    assert items[i := items[i]] == items;
  }

  lemma {:induction false} PlaceNamedAgain(items: seq<Json>, key: string, j: nat)
    requires UniqueNames(items, key) && j <= |items| && forall i :: 0 <= i < |items| ==> Name(items[i], key).Some?
    ensures PlacedAll(items, key, items[..j]) == items
    decreases j
  {
    if j > 0 {
      PlaceNamedAgain(items, key, j - 1);
      assert items[..j][..j - 1] == items[..j - 1];
      PlaceAgain(items, key, j - 1);
    }
  }

  lemma {:induction false} PlaceNameless(result: seq<Json>, key: string, items: seq<Json>)
    requires forall i :: 0 <= i < |items| ==> Name(items[i], key).None?
    ensures PlacedAll(result, key, items) == result + items
  {
    if items != [] {
      var init := items[..|items| - 1];
      PlaceNameless(result, key, init);
      assert items == init + [items[|items| - 1]];
    } else {
      assert result + items == result;
    }
  }

  lemma {:induction false} PlacedAllConcat(result: seq<Json>, key: string, a: seq<Json>, b: seq<Json>)
    ensures PlacedAll(result, key, a + b) == PlacedAll(PlacedAll(result, key, a), key, b)
  {
    if b == [] {
      assert a + b == a;
    } else {
      PlacedAllConcat(result, key, a, b[..|b| - 1]);
      assert (a + b)[..|a + b| - 1] == a + b[..|b| - 1];
    }
  }

  lemma {:induction false} SelfPlace(items: seq<Json>, key: string, m: nat)
    requires UniqueNames(items, key) && m <= |items|
    requires forall i :: 0 <= i < |items| ==> (Name(items[i], key).Some? <==> i < m)
    ensures PlacedAll(items[..m], key, items) == items
  {
    PlaceParts(items[..m], items[m..], key);
    assert items == items[..m] + items[m..];
  }

  lemma {:induction false} PlaceParts(named: seq<Json>, rest: seq<Json>, key: string)
    requires UniqueNames(named, key)
    requires forall i :: 0 <= i < |named| ==> Name(named[i], key).Some?
    requires forall i :: 0 <= i < |rest| ==> Name(rest[i], key).None?
    ensures PlacedAll(named, key, named + rest) == named + rest
  {
    PlaceNamedAgain(named, key, |named|);
    assert named[..|named|] == named;
    PlaceNameless(named, key, rest);
    PlacedAllConcat(named, key, named, rest);
  }

  lemma {:induction false} OnlyNamelessAdded(ns: seq<Option<string>>, more: seq<Option<string>>)
    requires forall n :: n in more && n.Some? ==> n in ns
    ensures ns <= AddNames(ns, more)
    ensures forall k :: |ns| <= k < |AddNames(ns, more)| ==> AddNames(ns, more)[k].None?
  {
    if more != [] {
      OnlyNamelessAdded(ns, more[..|more| - 1]);
    }
  }

  /** Merging a list with itself gives it back exactly when its names are distinct and its nameless
      entries come last. */
  lemma {:induction false} SelfMergeIff(items: seq<Json>, key: string)
    requires AllObjects(items)
    ensures MergeLists(items, items, key) == items <==> UniqueNames(items, key) && NamelessLast(items, key)
  {
    if UniqueNames(items, key) && NamelessLast(items, key) {
      var m := NamedCount(items, key);
      KeptOfTail(items, key, m);
      KeptIsAll(items[..m], key);
      SelfPlace(items, key, m);
      if m == |items| { assert items[..m] == items; }
    }
    if MergeLists(items, items, key) == items {
      SelfMergeNames(items, key);
    }
  }

  /** A list that merges to itself has its kept entries' names first and no name after them. */
  lemma {:induction false} SelfMergeNames(items: seq<Json>, key: string)
    requires AllObjects(items) && MergeLists(items, items, key) == items
    ensures UniqueNames(items, key) && NamelessLast(items, key)
  {
    var kept := Kept(items, key);
    KeptIsUnique(items, key);
    MergedNames(kept, key, items);
    OnlyNamelessAdded(Names(kept, key), Names(items, key));
    forall i | 0 <= i < |kept| ensures Name(kept[i], key).Some? {
      assert Names(kept, key)[i] in Names(kept, key);
    }
    NamesThenNone(kept, items, key);
  }

  lemma {:induction false} NamesThenNone(kept: seq<Json>, items: seq<Json>, key: string)
    requires UniqueNames(kept, key) && forall i :: 0 <= i < |kept| ==> Name(kept[i], key).Some?
    requires Names(kept, key) <= Names(items, key)
    requires forall k :: |kept| <= k < |items| ==> Names(items, key)[k].None?
    ensures UniqueNames(items, key) && NamelessLast(items, key)
  {
    forall i | 0 <= i < |items|
      ensures if i < |kept| then Name(items[i], key) == Name(kept[i], key) else Name(items[i], key).None?
    {
      assert Names(items, key)[i] == Name(items[i], key);
      if i < |kept| { assert Names(kept, key)[i] == Names(items, key)[i]; }
    }
  }

  // ---- whole manifests ----

  function ListField(m: JsonMap, field: string): Option<seq<Json>> {
    if field in m && m[field].List? then Some(m[field].items) else None
  }

  /** Replace a plain list by the merge of both sides' lists, when both have one. */
  function WithList(merged: Option<JsonMap>, previous: JsonMap, incoming: JsonMap, field: string, key: string)
    : Option<JsonMap>
  {
    var a, b := ListField(previous, field), ListField(incoming, field);
    if merged.None? || a.None? || b.None? then merged
    else if !(AllObjects(a.value) && AllObjects(b.value)) then None
    else Some(merged.value[field := List(MergeLists(a.value, b.value, key))])
  }

  function MergeOne(previous: JsonMap, incoming: JsonMap): Option<JsonMap> {
    var merged := Some(Merge(Obj(previous), Obj(incoming)).fields);
    var banked := WithList(merged, previous, incoming, "banks", "name");
    WithList(banked, previous, incoming, "signals", "logical_name")
  }

  /** All manifests merged in order; `None` once two lists with an entry that is not an object meet. */
  function MergeAll(inputs: seq<JsonMap>): Option<JsonMap> {
    if inputs == [] then Some(map[])
    else
      var previous := MergeAll(inputs[..|inputs| - 1]);
      if previous.None? then None else MergeOne(previous.value, inputs[|inputs| - 1])
  }

  /** The list of one field, merged into what is merged so far. */
  method MergeField(merged: JsonMap, previous: JsonMap, incoming: JsonMap, field: string, key: string)
    returns (r: Option<JsonMap>)
    ensures r == WithList(Some(merged), previous, incoming, field, key)
  {
    var a, b := ListField(previous, field), ListField(incoming, field);
    if a.None? || b.None? {
      return Some(merged);
    }
    var items := MergeNamedList(a.value, b.value, key);
    if items.None? {
      return None;
    }
    r := Some(merged[field := List(items.value)]);
  }

  method MergeManifests(inputs: seq<JsonMap>) returns (r: Option<JsonMap>)
    ensures r == MergeAll(inputs)
  {
    var merged: JsonMap := map[];
    for i := 0 to |inputs|
      invariant MergeAll(inputs[..i]) == Some(merged)
    {
      assert inputs[..i + 1][..i] == inputs[..i];
      var previous := merged;
      merged := DeepMerge(previous, inputs[i]);
      var step := MergeField(merged, previous, inputs[i], "banks", "name");
      if step.Some? {
        step := MergeField(step.value, previous, inputs[i], "signals", "logical_name");
      }
      if step.None? {
        NoneStaysNone(inputs, i + 1);
        return None;
      }
      merged := step.value;
    }
    assert inputs[..|inputs|] == inputs;
    r := Some(merged);
  }

  lemma {:induction false} NoneStaysNone(inputs: seq<JsonMap>, n: nat)
    requires n <= |inputs| && MergeAll(inputs[..n]).None?
    ensures MergeAll(inputs).None?
    decreases |inputs|
  {
    if n == |inputs| {
      assert inputs[..n] == inputs;
    } else {
      assert inputs[..|inputs| - 1][..n] == inputs[..n];
      NoneStaysNone(inputs[..|inputs| - 1], n);
    }
  }

  ghost predicate SelfStable(m: JsonMap, field: string, key: string) {
    var items := ListField(m, field);
    items.Some? ==> AllObjects(items.value) && UniqueNames(items.value, key) && NamelessLast(items.value, key)
  }

  lemma {:induction false} OneManifest(m: JsonMap)
    ensures MergeAll([m]) == Some(m)
    ensures MergeAll([m, map[]]) == Some(m)
  {
    assert [m][..0] == [] && [m, map[]][..1] == [m];
    assert Merge(Obj(map[]), Obj(m)).fields == m;
    assert Merge(Obj(m), Obj(map[])).fields == m;
  }

  /** One manifest, or one with an empty overlay, merges to itself, whatever its lists hold; a
      manifest with itself does exactly when its bank and signal lists are of objects with distinct
      names, nameless entries last. */
  lemma {:induction false} ManifestIdentities(m: JsonMap)
    ensures MergeAll([m]) == Some(m)
    ensures MergeAll([m, map[]]) == Some(m)
    ensures MergeAll([m, m]) == Some(m) <==> SelfStable(m, "banks", "name") && SelfStable(m, "signals", "logical_name")
  {
    OneManifest(m);
    assert [m, m][..1] == [m];
    MergeSelf(Obj(m));
    FieldWithItself(m, m, "banks", "name");
    var banked := WithList(Some(m), m, m, "banks", "name");
    assert MergeAll([m, m]) == MergeOne(m, m) == WithList(banked, m, m, "signals", "logical_name");
    assert "banks"[0] != "signals"[0];
    if banked.Some? {
      FieldWithItself(banked.value, m, "signals", "logical_name");
    }
    assert "banks" in m ==> m["banks" := m["banks"]] == m;
    assert "signals" in m ==> m["signals" := m["signals"]] == m;
  }

  /** Merging a field of `m` with itself into `merged` puts the field's own list there exactly when
      the list is stable. */
  lemma {:induction false} FieldWithItself(merged: JsonMap, m: JsonMap, field: string, key: string)
    requires field in m ==> field in merged
    ensures var r, listed := WithList(Some(merged), m, m, field, key), ListField(m, field).Some?;
            && (SelfStable(m, field, key) ==> r == Some(if listed then merged[field := m[field]] else merged))
            && (!SelfStable(m, field, key) ==> r.None? || (field in r.value && r.value[field] != m[field]))
            && (r.Some? ==> forall k :: k != field && k in merged ==> k in r.value && r.value[k] == merged[k])
  {
    var items := ListField(m, field);
    if items.Some? && AllObjects(items.value) {
      SelfMergeIff(items.value, key);
    }
  }

  /** A field that both manifests hold as a list, so that the lists are merged by name. */
  predicate Listed(a: JsonMap, b: JsonMap, field: string) {
    field in a && field in b && a[field].List? && b[field].List?
  }

  /** Such a field with an entry that is not an object. */
  predicate Clashes(a: JsonMap, b: JsonMap, field: string) {
    Listed(a, b, field) && !(AllObjects(a[field].items) && AllObjects(b[field].items))
  }

  ghost predicate OverlaidField(a: JsonMap, b: JsonMap, r: JsonMap, field: string, key: string) {
    Listed(a, b, field) ==>
      field in r && r[field].List? && OverlaidList(a[field].items, b[field].items, r[field].items, key)
  }

  lemma {:induction false} FieldIsOverlaid(merged: JsonMap, a: JsonMap, b: JsonMap, field: string, key: string)
    ensures var r := WithList(Some(merged), a, b, field, key);
            && (r.None? <==> Clashes(a, b, field))
            && (r.Some? ==>
                 && OverlaidField(a, b, r.value, field, key)
                 && (forall k :: k in r.value <==> k in merged || (k == field && Listed(a, b, field)))
                 && (forall k :: k in merged && !(k == field && Listed(a, b, field)) ==> r.value[k] == merged[k]))
  {
    if Listed(a, b, field) && !Clashes(a, b, field) {
      ListsAreOverlaid(a[field].items, b[field].items, key);
    }
  }

  /** One more manifest over those merged so far, whatever they hold. The tool fails exactly when it
      meets a list entry that is not an object. Otherwise banks and signals that both sides list are
      overlaid by name, the later manifest over the earlier, and every other field is that of the
      recursive merge, again the later over the earlier. */
  lemma {:induction false} LaterManifestWins(inputs: seq<JsonMap>, a: JsonMap, b: JsonMap)
    requires MergeAll(inputs) == Some(a)
    ensures var r := MergeAll(inputs + [b]);
            && (r.None? <==> Clashes(a, b, "banks") || Clashes(a, b, "signals"))
            && (r.Some? ==>
                 && r.value.Keys == a.Keys + b.Keys
                 && OverlaidField(a, b, r.value, "banks", "name")
                 && OverlaidField(a, b, r.value, "signals", "logical_name")
                 && forall k :: k in r.value && !(k in {"banks", "signals"} && Listed(a, b, k)) ==>
                      r.value[k] == Merge(Obj(a), Obj(b)).fields[k])
  {
    assert (inputs + [b])[..|inputs|] == inputs;
    var merged := Merge(Obj(a), Obj(b)).fields;
    FieldIsOverlaid(merged, a, b, "banks", "name");
    var banked := WithList(Some(merged), a, b, "banks", "name");
    assert "banks"[0] != "signals"[0];
    if banked.Some? {
      FieldIsOverlaid(banked.value, a, b, "signals", "logical_name");
      var r := WithList(banked, a, b, "signals", "logical_name");
      assert MergeAll(inputs + [b]) == r;
      assert r.Some? ==> r.value.Keys == a.Keys + b.Keys;
    }
  }

  /** In particular of two manifests the second wins. */
  lemma {:induction false} SecondManifestWins(a: JsonMap, b: JsonMap)
    requires !Clashes(a, b, "banks") && !Clashes(a, b, "signals")
    ensures var r := MergeAll([a, b]);
            && r.Some? && r.value.Keys == a.Keys + b.Keys
            && OverlaidField(a, b, r.value, "banks", "name")
            && OverlaidField(a, b, r.value, "signals", "logical_name")
            && forall k :: k in r.value && !(k in {"banks", "signals"} && Listed(a, b, k)) ==>
                 r.value[k] == Merge(Obj(a), Obj(b)).fields[k]
  {
    OneManifest(a);
    LaterManifestWins([a], a, b);
    assert [a] + [b] == [a, b];
  }

  /** Grouping matters: a scalar between two objects hides the first from the last in one grouping. */
  lemma {:induction false} MergeIsNotAssociative()
    ensures var x, y, z := Obj(map["a" := Null]), Str("s"), Obj(map["b" := Null]);
            Merge(Merge(x, y), z) == z && Merge(x, Merge(y, z)) == Obj(map["a" := Null, "b" := Null])
  {}
}
