/** Applying several named patches in order, refusing conflicting ones; and why the order does not matter. */
module MergePatchOrder {
  import opened Wrappers
  import opened Json
  import opened MergePatch

  ghost predicate AllObjects(patches: seq<Json>) {
    forall i :: 0 <= i < |patches| ==> patches[i].JObject?
  }

  /** No two different patches of the list write overlapping leaf paths. */
  ghost predicate ConflictFree(patches: seq<Json>)
    requires AllObjects(patches)
  {
    forall i, j :: 0 <= i < j < |patches| ==> !Conflicting(patches[i], patches[j])
  }

  function MergedAll(body: Json, patches: seq<Json>): (r: Json)
    requires body.JObject? && AllObjects(patches)
    ensures r.JObject?
  {
    if patches == [] then body else Merged(MergedAll(body, patches[..|patches| - 1]), patches[|patches| - 1])
  }

  function Without<T>(s: seq<T>, i: nat): (r: seq<T>)
    requires i < |s|
    ensures |r| == |s| - 1
    ensures forall j :: 0 <= j < i ==> r[j] == s[j]
    ensures forall j :: i <= j < |r| ==> r[j] == s[j + 1]
  {
    s[..i] + s[i + 1..]
  }

  lemma {:induction false} CommuteConflictFree(target: Json, p: Json, q: Json)
    requires target.JObject? && p.JObject? && q.JObject? && !Conflicting(p, q)
    ensures Merged(Merged(target, p), q) == Merged(Merged(target, q), p)
  {
    CompatibleIsConflictFree(p, q);
    Commute(target, p, q);
  }

  /** A patch that conflicts with none after it may as well come last. */
  lemma {:induction false} MoveToEnd(body: Json, patches: seq<Json>, i: nat)
    requires body.JObject? && AllObjects(patches) && i < |patches|
    requires forall j :: i < j < |patches| ==> !Conflicting(patches[i], patches[j])
    ensures MergedAll(body, patches) == Merged(MergedAll(body, Without(patches, i)), patches[i])
    decreases |patches|
  {
    var n := |patches| - 1;
    var shorter := patches[..n];
    if i == n {
      assert Without(patches, i) == shorter;
    } else {
      MoveToEnd(body, shorter, i);
      assert Without(patches, i)[..n - 1] == Without(shorter, i);
      CommuteConflictFree(MergedAll(body, Without(shorter, i)), patches[i], patches[n]);
    }
  }

  lemma {:induction false} WithoutMultiset<T>(s: seq<T>, i: nat)
    requires i < |s|
    ensures multiset(Without(s, i)) == multiset(s) - multiset{s[i]}
  {
    assert s == s[..i] + [s[i]] + s[i + 1..];
  }

  lemma {:induction false} ConflictIsSymmetric(p: Json, q: Json)
    requires p.JObject? && q.JObject?
    ensures Conflicting(p, q) <==> Conflicting(q, p)
  {
    if Conflicting(p, q) {
      var left, right :| Owns(p, left) && Owns(q, right) && Overlap(left, right);
      assert Overlap(right, left);
    }
    if Conflicting(q, p) {
      var left, right :| Owns(q, left) && Owns(p, right) && Overlap(left, right);
      assert Overlap(right, left);
    }
  }

  lemma {:induction false} ConflictFreeInsert(patches: seq<Json>, i: nat)
    requires AllObjects(patches) && i < |patches| && ConflictFree(Without(patches, i))
    requires forall j :: 0 <= j < |patches| && j != i ==> !Conflicting(patches[j], patches[i])
    ensures ConflictFree(patches)
  {
    var rest := Without(patches, i);
    forall j, k | 0 <= j < k < |patches|
      ensures !Conflicting(patches[j], patches[k])
    {
      ConflictIsSymmetric(patches[j], patches[k]);
      if j != i && k != i {
        var j', k' := if j < i then j else j - 1, if k < i then k else k - 1;
        assert rest[j'] == patches[j] && rest[k'] == patches[k];
      }
    }
  }

  /** Every order of conflict-free patches is conflict-free, and gives the same object. */
  lemma {:induction false} AnyOrder(body: Json, patches: seq<Json>, others: seq<Json>)
    requires body.JObject? && AllObjects(patches) && AllObjects(others)
    requires multiset(patches) == multiset(others) && ConflictFree(patches)
    ensures ConflictFree(others) && MergedAll(body, patches) == MergedAll(body, others)
    decreases |patches|
  {
    if patches == [] {
      assert |multiset(others)| == |others|;
    } else {
      var n := |patches| - 1;
      var i := LastAmong(patches, others);
      AnyOrder(body, patches[..n], Without(others, i));
      ConflictFreeInsert(others, i);
      MoveToEnd(body, others, i);
    }
  }

  /** Where the last patch stands in another order: it conflicts with none of the rest. */
  lemma {:induction false} LastAmong(patches: seq<Json>, others: seq<Json>) returns (i: nat)
    requires AllObjects(patches) && AllObjects(others) && patches != []
    requires multiset(patches) == multiset(others) && ConflictFree(patches)
    ensures i < |others| && others[i] == patches[|patches| - 1]
    ensures multiset(patches[..|patches| - 1]) == multiset(Without(others, i))
    ensures forall j :: 0 <= j < |others| && j != i ==>
              !Conflicting(others[j], others[i]) && !Conflicting(others[i], others[j])
  {
    i := LastIsThere(patches, others);
    hide Conflicting, ConflictFree;
    forall j | 0 <= j < |others| && j != i
      ensures !Conflicting(others[j], others[i]) && !Conflicting(others[i], others[j])
    {
      WithoutHas(others, i, j);
      NoConflictWithLast(patches, others[j]);
    }
  }

  lemma {:induction false} LastIsThere<T>(a: seq<T>, b: seq<T>) returns (i: nat)
    requires a != [] && multiset(a) == multiset(b)
    ensures i < |b| && b[i] == a[|a| - 1] && multiset(a[..|a| - 1]) == multiset(Without(b, i))
  {
    var front, x := a[..|a| - 1], a[|a| - 1];
    assert a == front + [x];
    assert x in multiset(b);
    i :| 0 <= i < |b| && b[i] == x;
    WithoutMultiset(b, i);
  }

  lemma {:induction false} WithoutHas<T>(s: seq<T>, i: nat, j: nat)
    requires i < |s| && j < |s| && i != j
    ensures s[j] in multiset(Without(s, i))
  {
    assert s[j] == Without(s, i)[if j < i then j else j - 1];
  }

  lemma {:induction false} NoConflictWithLast(patches: seq<Json>, p: Json)
    requires AllObjects(patches) && patches != [] && ConflictFree(patches) && p.JObject?
    requires p in multiset(patches[..|patches| - 1])
    ensures !Conflicting(p, patches[|patches| - 1]) && !Conflicting(patches[|patches| - 1], p)
  {
    var shorter, x := patches[..|patches| - 1], patches[|patches| - 1];
    var k :| 0 <= k < |shorter| && shorter[k] == p;
    assert patches[k] == p;
    ConflictIsSymmetric(p, x);
  }

  // ---------- frame

  /**
   In a conflict-free list, every leaf path a patch owns ends up holding exactly what that patch writes there over
   the body, whatever the other patches do.
   */
  lemma {:induction false} EveryPatchPrevails(body: Json, patches: seq<Json>, i: nat, path: Path)
    requires body.JObject? && AllObjects(patches) && ConflictFree(patches) && i < |patches| && Owns(patches[i], path)
    ensures Lookup(MergedAll(body, patches), path) == Written(body, patches[i], path)
    decreases |patches|
  {
    var n := |patches| - 1;
    var before := MergedAll(body, patches[..n]);
    if i == n {
      OwnedPathsAreWritten(before, patches[n], path);
      forall k | 0 <= k < n
        ensures forall owned :: Owns(patches[k], owned) ==> !Overlap(owned, path)
      {
        forall owned | Owns(patches[k], owned)
          ensures !Overlap(owned, path)
        {
          assert !Conflicting(patches[k], patches[n]);
        }
      }
      UntouchedPathsAreKept(body, patches[..n], path);
    } else {
      EveryPatchPrevails(body, patches[..n], i, path);
      forall owned | Owns(patches[n], owned)
        ensures !Overlap(owned, path)
      {
        assert !Conflicting(patches[i], patches[n]);
      }
      OtherPathsAreKept(before, patches[n], path);
    }
  }

  /** A path that overlaps nothing any patch owns keeps its value in the body. */
  lemma {:induction false} UntouchedPathsAreKept(body: Json, patches: seq<Json>, path: Path)
    requires body.JObject? && AllObjects(patches)
    requires forall k :: 0 <= k < |patches| ==> forall owned :: Owns(patches[k], owned) ==> !Overlap(owned, path)
    ensures Lookup(MergedAll(body, patches), path) == Lookup(body, path)
    decreases |patches|
  {
    if patches != [] {
      var n := |patches| - 1;
      UntouchedPathsAreKept(body, patches[..n], path);
      OtherPathsAreKept(MergedAll(body, patches[..n]), patches[n], path);
    }
  }

  // ---------- the loops

  /** `path` continues `prefix` with a leaf path of the patch. */
  ghost predicate OwnsBelow(patch: Json, prefix: Path, path: Path)
    requires patch.JObject?
  {
    prefix <= path && Owns(patch, path[|prefix|..])
  }

  /** Every leaf path of a patch, each once, below a prefix. Keys come in some order. */
  method CollectWrittenPaths(patch: Json, prefix: Path) returns (paths: seq<Path>)
    requires patch.JObject?
    ensures forall path :: path in paths <==> OwnsBelow(patch, prefix, path)
    ensures forall i, j :: 0 <= i < j < |paths| ==> paths[i] != paths[j]
    decreases patch
  {
    paths := [];
    var keys, done := patch.fields.Keys, {};
    while keys != {}
      invariant keys + done == patch.fields.Keys && keys !! done
      invariant forall path :: path in paths <==>
                  OwnsBelow(patch, prefix, path) && path[|prefix|..][0] in done
      invariant forall i, j :: 0 <= i < j < |paths| ==> paths[i] != paths[j]
      decreases |keys|
    {
      var key :| key in keys;
      var path := prefix + [key];
      var more;
      if IsBranch(patch.fields[key]) {
        more := CollectWrittenPaths(patch.fields[key], path);
      } else {
        more := [path];
      }
      BelowKey(patch, prefix, key, more);
      assert forall path :: path in more ==> path !in paths;
      DistinctConcat(paths, more);
      paths := paths + more;
      keys, done := keys - {key}, done + {key};
    }
  }

  lemma {:induction false} DistinctConcat<T>(a: seq<T>, b: seq<T>)
    requires forall i, j :: 0 <= i < j < |a| ==> a[i] != a[j]
    requires forall i, j :: 0 <= i < j < |b| ==> b[i] != b[j]
    requires forall x :: x in b ==> x !in a
    ensures forall i, j :: 0 <= i < j < |a + b| ==> (a + b)[i] != (a + b)[j]
  {
    forall i, j | 0 <= i < j < |a + b|
      ensures (a + b)[i] != (a + b)[j]
    {
      if j >= |a| {
        assert b[j - |a|] in b;
      }
    }
  }

  lemma {:induction false} BelowKey(patch: Json, prefix: Path, key: string, more: seq<Path>)
    requires patch.JObject? && key in patch.fields
    requires if IsBranch(patch.fields[key])
             then forall path :: path in more <==> OwnsBelow(patch.fields[key], prefix + [key], path)
             else more == [prefix + [key]]
    ensures forall path :: path in more <==> OwnsBelow(patch, prefix, path) && path[|prefix|..][0] == key
  {
    forall path
      ensures path in more <==> OwnsBelow(patch, prefix, path) && path[|prefix|..][0] == key
    {
      if prefix <= path && |path| > |prefix| {
        var rest := path[|prefix|..];
        assert prefix + [key] <= path <==> rest[0] == key;
        if rest[0] == key {
          assert path[|prefix + [key]|..] == rest[1..];
          assert path == prefix + [key] <==> |rest| == 1;
        }
      }
    }
  }

  /** The first owned path that overlaps, if any does. */
  method FindOverlap(ownedPaths: seq<OwnedPath>, path: Path) returns (found: Option<nat>)
    ensures found.Some? ==> found.value < |ownedPaths| && Overlap(ownedPaths[found.value].path, path)
    ensures found.None? ==> forall i :: 0 <= i < |ownedPaths| ==> !Overlap(ownedPaths[i].path, path)
  {
    for i := 0 to |ownedPaths|
      invariant forall j :: 0 <= j < i ==> !Overlap(ownedPaths[j].path, path)
    {
      var overlap := PathsOverlap(ownedPaths[i].path, path);
      if overlap {
        return Some(i);
      }
    }
    return None;
  }

  method PathsOverlap(left: Path, right: Path) returns (overlap: bool)
    ensures overlap <==> Overlap(left, right)
  {
    var sharedLength := if |left| < |right| then |left| else |right|;
    for index := 0 to sharedLength
      invariant left[..index] == right[..index]
    {
      if left[index] != right[index] {
        return false;
      }
      assert left[..index + 1] == right[..index + 1];
    }
    return true;
  }

  /** The merge as it is done: a copy of the target, its fields deleted and replaced key by key. */
  method MergeObject(target: Json, patch: Json) returns (result: Json)
    requires target.JObject? && patch.JObject?
    ensures result == Merged(target, patch)
    decreases patch, 1
  {
    hide Merged, ObjectAt;
    var fields := target.fields;
    var keys := patch.fields.Keys;
    while keys != {}
      invariant keys <= patch.fields.Keys
      invariant forall key :: key in keys || key !in patch.fields ==> Get(JObject(fields), key) == Get(target, key)
      invariant forall key :: key in patch.fields && key !in keys ==>
                  Get(JObject(fields), key) == Get(Merged(target, patch), key)
      decreases |keys|
    {
      var key :| key in keys;
      GetMerged(target, patch, key);
      SameObjectAt(JObject(fields), target, key);
      fields := MergeField(fields, patch, key);
      keys := keys - {key};
    }
    forall key
      ensures Get(JObject(fields), key) == Get(Merged(target, patch), key)
    {
      GetMerged(target, patch, key);
    }
    SameFields(JObject(fields), Merged(target, patch));
    return JObject(fields);
  }

  lemma {:induction false} SameObjectAt(a: Json, b: Json, key: string)
    requires a.JObject? && b.JObject? && Get(a, key) == Get(b, key)
    ensures ObjectAt(a, key) == ObjectAt(b, key)
  {
  }

  /** One turn of the loop: a null deletes, an object is merged into the object there, anything else replaces. */
  method MergeField(fields: map<string, Json>, patch: Json, key: string) returns (fields': map<string, Json>)
    requires patch.JObject? && key in patch.fields
    ensures Get(JObject(fields'), key)
         == if patch.fields[key] == JNull then None
            else if patch.fields[key].JObject? then Some(Merged(ObjectAt(JObject(fields), key), patch.fields[key]))
            else Some(patch.fields[key])
    ensures forall other :: other != key ==> Get(JObject(fields'), other) == Get(JObject(fields), other)
    decreases patch, 0
  {
    var patchValue := patch.fields[key];
    if patchValue == JNull {
      fields' := fields - {key};
    } else if patchValue.JObject? {
      var merged := MergeObject(ObjectAt(JObject(fields), key), patchValue);
      fields' := fields[key := merged];
    } else {
      fields' := fields[key := patchValue];
    }
  }

  function Patches(named: seq<NamedPatch>): (r: seq<Json>)
    ensures |r| == |named| && forall i :: 0 <= i < |r| ==> r[i] == named[i].patch
  {
    seq(|named|, i requires 0 <= i < |named| => named[i].patch)
  }

  /** The owned paths of the first `count` patches, as a list. */
  ghost predicate Records(named: seq<NamedPatch>, count: nat, owned: seq<OwnedPath>)
    requires count <= |named| && AllObjects(Patches(named))
  {
    && (forall t :: 0 <= t < |owned| ==> RecordedBy(named, count, owned[t]))
    && (forall i, path :: 0 <= i < count && Owns(named[i].patch, path) ==> OwnedPath(named[i].option, path) in owned)
  }

  ghost predicate RecordedBy(named: seq<NamedPatch>, count: nat, o: OwnedPath)
    requires count <= |named| && AllObjects(Patches(named))
  {
    exists i :: 0 <= i < count && named[i].option == o.option && Owns(named[i].patch, o.path)
  }

  /** A conflict that is really there: two different patches, their names, and a path of the later one. */
  ghost predicate IsConflict(named: seq<NamedPatch>, c: Conflict)
    requires AllObjects(Patches(named))
  {
    exists i, j :: 0 <= i < j < |named| && named[i].option == c.owner && named[j].option == c.option
                   && Owns(named[j].patch, c.path) && Touches(named[i].patch, c.path)
  }

  ghost predicate Touches(patch: Json, path: Path)
    requires patch.JObject?
  {
    exists owned :: Owns(patch, owned) && Overlap(owned, path)
  }

  /**
   Applies the patches in order. It fails exactly when two different patches own overlapping leaf paths, and then names
   such a pair; otherwise the result is the merge of all of them.
   */
  method ApplyOrderedJsonMergePatches(body: Json, named: seq<NamedPatch>) returns (r: Result<Json, Conflict>)
    requires body.JObject? && AllObjects(Patches(named))
    ensures r.Ok? <==> ConflictFree(Patches(named))
    ensures r.Ok? ==> r.value == MergedAll(body, Patches(named))
    ensures r.Err? ==> IsConflict(named, r.error)
  {
    var ownedPaths: seq<OwnedPath> := [];
    var result := body;
    ghost var patches := Patches(named);
    hide Conflicting, Merged, Owns, OwnsBelow;
    for k := 0 to |named|
      invariant Records(named, k, ownedPaths)
      invariant ConflictFree(patches[..k]) && result == MergedAll(body, patches[..k])
    {
      var paths := CollectWrittenPaths(named[k].patch, []);
      OwnsFromTheRoot(named[k].patch);
      var conflict;
      conflict, ownedPaths := ClaimPaths(named, k, ownedPaths, paths);
      if conflict.Some? {
        ConflictIsReal(named, conflict.value);
        return Err(conflict.value);
      }
      NextIsConflictFree(named, k);
      assert patches[..k + 1][..k] == patches[..k];
      result := MergeObject(result, named[k].patch);
    }
    assert patches[..|named|] == patches;
    return Ok(result);
  }

  /** Claims the paths of one patch, unless one of them overlaps a path some earlier patch owns. */
  lemma {:induction false} OwnsFromTheRoot(patch: Json)
    requires patch.JObject?
    ensures forall path :: OwnsBelow(patch, [], path) <==> Owns(patch, path)
  {
    forall path
      ensures OwnsBelow(patch, [], path) <==> Owns(patch, path)
    {
      assert path[0..] == path;
    }
  }

  method ClaimPaths(named: seq<NamedPatch>, k: nat, before: seq<OwnedPath>, paths: seq<Path>)
    returns (conflict: Option<Conflict>, ownedPaths: seq<OwnedPath>)
    requires AllObjects(Patches(named)) && k < |named| && Records(named, k, before)
    requires forall path :: path in paths <==> Owns(named[k].patch, path)
    requires forall i, j :: 0 <= i < j < |paths| ==> paths[i] != paths[j]
    ensures conflict.Some? ==> IsConflict(named, conflict.value)
    ensures conflict.None? ==>
              && Records(named, k + 1, ownedPaths)
              && forall i :: 0 <= i < k ==> !Conflicting(named[i].patch, named[k].patch)
  {
    ownedPaths := before;
    var option := named[k].option;
    for m := 0 to |paths|
      invariant |ownedPaths| == |before| + m && ownedPaths[..|before|] == before
      invariant forall t :: 0 <= t < m ==> ownedPaths[|before| + t] == OwnedPath(option, paths[t])
      invariant forall t, u :: 0 <= t < m && 0 <= u < |before| ==> !Overlap(before[u].path, paths[t])
    {
      var path := paths[m];
      var found := FindOverlap(ownedPaths, path);
      if found.Some? {
        if found.value >= |before| {
          assert paths[found.value - |before|] in paths && path in paths;
          OwnPathsDoNotOverlap(named[k].patch, paths[found.value - |before|], path);
          assert false;
        }
        var owner := ownedPaths[found.value];
        assert owner == before[found.value] && RecordedBy(named, k, owner);
        ghost var i :| 0 <= i < k && named[i].option == owner.option && Owns(named[i].patch, owner.path);
        assert path in paths && Touches(named[i].patch, path);
        return Some(Conflict(path, owner.option, option)), ownedPaths;
      }
      forall u | 0 <= u < |before|
        ensures !Overlap(before[u].path, path)
      {
        assert ownedPaths[u] == before[u];
      }
      ownedPaths := ownedPaths + [OwnedPath(option, path)];
    }
    NoneConflicts(named, k, before, paths);
    AllRecorded(named, k, before, paths, ownedPaths);
    return None, ownedPaths;
  }

  lemma {:induction false} NoneConflicts(named: seq<NamedPatch>, k: nat, before: seq<OwnedPath>, paths: seq<Path>)
    requires AllObjects(Patches(named)) && k < |named| && Records(named, k, before)
    requires forall path :: path in paths <==> Owns(named[k].patch, path)
    requires forall t, u :: 0 <= t < |paths| && 0 <= u < |before| ==> !Overlap(before[u].path, paths[t])
    ensures forall i :: 0 <= i < k ==> !Conflicting(named[i].patch, named[k].patch)
  {
    forall i, left, right | 0 <= i < k && Owns(named[i].patch, left) && Owns(named[k].patch, right)
      ensures !Overlap(left, right)
    {
      assert OwnedPath(named[i].option, left) in before && right in paths;
    }
  }

  lemma {:induction false} AllRecorded(named: seq<NamedPatch>, k: nat, before: seq<OwnedPath>, paths: seq<Path>,
                                       owned: seq<OwnedPath>)
    requires AllObjects(Patches(named)) && k < |named| && Records(named, k, before)
    requires forall path :: path in paths <==> Owns(named[k].patch, path)
    requires |owned| == |before| + |paths| && owned[..|before|] == before
    requires forall t :: 0 <= t < |paths| ==> owned[|before| + t] == OwnedPath(named[k].option, paths[t])
    ensures Records(named, k + 1, owned)
  {
    forall t | 0 <= t < |owned|
      ensures RecordedBy(named, k + 1, owned[t])
    {
      if t < |before| {
        assert owned[t] == before[t] && RecordedBy(named, k, before[t]);
      } else {
        assert owned[t] == OwnedPath(named[k].option, paths[t - |before|]) && paths[t - |before|] in paths;
      }
    }
    forall i, path | 0 <= i < k + 1 && Owns(named[i].patch, path)
      ensures OwnedPath(named[i].option, path) in owned
    {
      if i < k {
        assert OwnedPath(named[i].option, path) in before;
        var u :| 0 <= u < |before| && before[u] == OwnedPath(named[i].option, path);
        assert owned[u] == before[u];
      } else {
        assert path in paths;
        var t :| 0 <= t < |paths| && paths[t] == path;
        assert owned[|before| + t] == OwnedPath(named[k].option, path);
      }
    }
  }

  lemma {:induction false} NextIsConflictFree(named: seq<NamedPatch>, k: nat)
    requires AllObjects(Patches(named)) && k < |named| && ConflictFree(Patches(named)[..k])
    requires forall i :: 0 <= i < k ==> !Conflicting(named[i].patch, named[k].patch)
    ensures ConflictFree(Patches(named)[..k + 1])
  {
    var patches := Patches(named);
    var next := patches[..k + 1];
    forall i, j | 0 <= i < j < |next|
      ensures !Conflicting(next[i], next[j])
    {
      if j < k {
        assert patches[..k][i] == next[i] && patches[..k][j] == next[j];
      }
    }
  }

  lemma {:induction false} ConflictIsReal(named: seq<NamedPatch>, c: Conflict)
    requires AllObjects(Patches(named)) && IsConflict(named, c)
    ensures !ConflictFree(Patches(named))
  {
    var i, j :| 0 <= i < j < |named| && named[i].option == c.owner && named[j].option == c.option
                && Owns(named[j].patch, c.path) && Touches(named[i].patch, c.path);
    assert Patches(named)[i] == named[i].patch && Patches(named)[j] == named[j].patch;
    assert Conflicting(named[i].patch, named[j].patch);
  }
}
