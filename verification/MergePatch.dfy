/**
 Ordered JSON Merge Patches with ownership of leaf paths: a later patch may not write where an earlier one has.
 */
module MergePatch {
  import opened Wrappers
  import opened Json

  type Path = seq<string>

  datatype NamedPatch = NamedPatch(option: string, patch: Json)

  datatype OwnedPath = OwnedPath(option: string, path: Path)

  datatype Conflict = Conflict(path: Path, owner: string, option: string)

  // ---------- merging

  /** MergePatch of section 2 of RFC 7396, clause for clause. */
  function Rfc7396(target: Json, patch: Json): Json
    decreases patch
  {
    if patch.JObject? then
      var base := if target.JObject? then target.fields else map[];
      JObject(map name | name in base.Keys + patch.fields.Keys
                         && (name in patch.fields ==> patch.fields[name] != JNull) ::
        if name in patch.fields
        then Rfc7396(if name in base then base[name] else JNull, patch.fields[name])
        else base[name])
    else patch
  }

  /** What `mergeObject` leaves under one key of the patch. */
  function Merged(target: Json, patch: Json): (r: Json)
    requires target.JObject? && patch.JObject?
    ensures r.JObject?
    decreases patch
  {
    JObject(map key | key in target.fields.Keys + patch.fields.Keys
                      && (key in patch.fields ==> patch.fields[key] != JNull) ::
      if key !in patch.fields then target.fields[key]
      else if patch.fields[key].JObject? then Merged(ObjectAt(target, key), patch.fields[key])
      else patch.fields[key])
  }

  /** The object under a key, or the empty object. */
  function ObjectAt(target: Json, key: string): (r: Json)
    requires target.JObject?
    ensures r.JObject?
  {
    if key in target.fields && target.fields[key].JObject? then target.fields[key] else EMPTY_OBJECT
  }

  /** Merging objects is the standard's MergePatch. */
  lemma {:induction false} MergedIsRfc7396(target: Json, patch: Json)
    requires target.JObject? && patch.JObject?
    ensures Merged(target, patch) == Rfc7396(target, patch)
    decreases patch
  {
    forall key | key in patch.fields && patch.fields[key].JObject?
      ensures Merged(ObjectAt(target, key), patch.fields[key])
           == Rfc7396(if key in target.fields then target.fields[key] else JNull, patch.fields[key])
    {
      MergedIsRfc7396(ObjectAt(target, key), patch.fields[key]);
    }
    assert Merged(target, patch).fields == Rfc7396(target, patch).fields;
  }

  /** Merging twice is merging once. */
  lemma {:induction false} MergedTwice(target: Json, patch: Json)
    requires target.JObject? && patch.JObject?
    ensures Merged(Merged(target, patch), patch) == Merged(target, patch)
    decreases patch
  {
    var once := Merged(target, patch);
    forall key | key in patch.fields && patch.fields[key].JObject?
      ensures Merged(ObjectAt(once, key), patch.fields[key]) == once.fields[key]
    {
      MergedTwice(ObjectAt(target, key), patch.fields[key]);
      assert ObjectAt(once, key) == Merged(ObjectAt(target, key), patch.fields[key]);
    }
    assert Merged(once, patch).fields == once.fields;
  }

  // ---------- ownership

  /** An object with something in it: its own leaves are owned, not the object. */
  predicate IsBranch(value: Json) {
    value.JObject? && value.fields != map[]
  }

  /** The leaf paths a patch writes. */
  ghost predicate Owns(patch: Json, path: Path)
    requires patch.JObject?
    decreases |path|
  {
    && path != [] && path[0] in patch.fields
    && if IsBranch(patch.fields[path[0]]) then Owns(patch.fields[path[0]], path[1..]) else |path| == 1
  }

  /** One path is the other, or leads to it. */
  predicate Overlap(left: Path, right: Path) {
    left <= right || right <= left
  }

  ghost predicate Conflicting(p: Json, q: Json)
    requires p.JObject? && q.JObject?
  {
    exists left, right :: Owns(p, left) && Owns(q, right) && Overlap(left, right)
  }

  /** No key is written by both, except where both write below it and are compatible there. */
  ghost predicate Compatible(p: Json, q: Json)
    requires p.JObject? && q.JObject?
    decreases p
  {
    forall key :: key in p.fields && key in q.fields ==>
      IsBranch(p.fields[key]) && IsBranch(q.fields[key]) && Compatible(p.fields[key], q.fields[key])
  }

  lemma {:induction false} SomeLeaf(value: Json) returns (path: Path)
    requires IsBranch(value)
    ensures Owns(value, path)
    decreases value
  {
    var key :| key in value.fields;
    if IsBranch(value.fields[key]) {
      var rest := SomeLeaf(value.fields[key]);
      path := [key] + rest;
      assert path[1..] == rest;
    } else {
      path := [key];
    }
  }

  /** Paths do not overlap exactly when the patches are compatible, key by key. */
  lemma {:induction false} CompatibleIsConflictFree(p: Json, q: Json)
    requires p.JObject? && q.JObject?
    ensures Compatible(p, q) <==> !Conflicting(p, q)
    decreases p
  {
    if !Compatible(p, q) {
      var key :| key in p.fields && key in q.fields
                 && !(IsBranch(p.fields[key]) && IsBranch(q.fields[key]) && Compatible(p.fields[key], q.fields[key]));
      var left, right;
      if IsBranch(p.fields[key]) && IsBranch(q.fields[key]) {
        CompatibleIsConflictFree(p.fields[key], q.fields[key]);
        var l, r :| Owns(p.fields[key], l) && Owns(q.fields[key], r) && Overlap(l, r);
        left, right := [key] + l, [key] + r;
        assert left[1..] == l && right[1..] == r;
      } else {
        left := LeafUnder(p, key);
        right := LeafUnder(q, key);
      }
      assert Owns(p, left) && Owns(q, right) && Overlap(left, right);
    }
    if Conflicting(p, q) {
      var left, right :| Owns(p, left) && Owns(q, right) && Overlap(left, right);
      var key := left[0];
      assert key == right[0];
      if IsBranch(p.fields[key]) && IsBranch(q.fields[key]) {
        CompatibleIsConflictFree(p.fields[key], q.fields[key]);
        assert Overlap(left[1..], right[1..]);
      }
    }
  }

  /** Some leaf path below a key, of length one when the key itself is a leaf. */
  lemma {:induction false} LeafUnder(p: Json, key: string) returns (path: Path)
    requires p.JObject? && key in p.fields
    ensures Owns(p, path) && path[0] == key && (!IsBranch(p.fields[key]) ==> path == [key])
  {
    path := [key];
    if IsBranch(p.fields[key]) {
      var rest := SomeLeaf(p.fields[key]);
      path := [key] + rest;
      assert path[1..] == rest;
    }
  }

  /** The leaf paths of one patch never overlap: a patch does not conflict with itself. */
  lemma {:induction false} OwnPathsDoNotOverlap(patch: Json, left: Path, right: Path)
    requires patch.JObject? && Owns(patch, left) && Owns(patch, right) && Overlap(left, right)
    ensures left == right
    decreases |left|
  {
    var key := left[0];
    assert key == right[0];
    if IsBranch(patch.fields[key]) {
      OwnPathsDoNotOverlap(patch.fields[key], left[1..], right[1..]);
      assert left == [key] + left[1..] && right == [key] + right[1..];
    }
  }

  // ---------- compatible patches commute

  function Get(value: Json, key: string): Option<Json>
    requires value.JObject?
  {
    if key in value.fields then Some(value.fields[key]) else None
  }

  /** One key of a merge. */
  lemma {:induction false} GetMerged(target: Json, patch: Json, key: string)
    requires target.JObject? && patch.JObject?
    ensures Get(Merged(target, patch), key)
         == if key !in patch.fields then Get(target, key)
            else if patch.fields[key] == JNull then None
            else if patch.fields[key].JObject? then Some(Merged(ObjectAt(target, key), patch.fields[key]))
            else Some(patch.fields[key])
  {
  }

  lemma {:induction false} SameFields(a: Json, b: Json)
    requires a.JObject? && b.JObject? && forall key :: Get(a, key) == Get(b, key)
    ensures a == b
  {
    forall key
      ensures key in a.fields <==> key in b.fields
      ensures key in a.fields ==> a.fields[key] == b.fields[key]
    {
      assert Get(a, key) == Get(b, key);
    }
    assert a.fields == b.fields;
  }

  lemma {:induction false} Commute(target: Json, p: Json, q: Json)
    requires target.JObject? && p.JObject? && q.JObject? && Compatible(p, q)
    ensures Merged(Merged(target, p), q) == Merged(Merged(target, q), p)
    decreases p, 1
  {
    forall key
      ensures Get(Merged(Merged(target, p), q), key) == Get(Merged(Merged(target, q), p), key)
    {
      CommuteAt(target, p, q, key);
    }
    SameFields(Merged(Merged(target, p), q), Merged(Merged(target, q), p));
  }

  lemma {:induction false} CommuteAt(target: Json, p: Json, q: Json, key: string)
    requires target.JObject? && p.JObject? && q.JObject? && Compatible(p, q)
    ensures Get(Merged(Merged(target, p), q), key) == Get(Merged(Merged(target, q), p), key)
    decreases p, 0
  {
    var afterP, afterQ := Merged(target, p), Merged(target, q);
    GetMerged(target, p, key);
    GetMerged(target, q, key);
    GetMerged(afterP, q, key);
    GetMerged(afterQ, p, key);
    hide Merged;
    if key in p.fields && key in q.fields {
      Commute(ObjectAt(target, key), p.fields[key], q.fields[key]);
    }
  }

  // ---------- lookup

  /** The value at a path, if there is one. */
  function Lookup(value: Json, path: Path): Option<Json>
    decreases |path|
  {
    if path == [] then Some(value)
    else if value.JObject? && path[0] in value.fields then Lookup(value.fields[path[0]], path[1..])
    else None
  }

  /** The object at a path, or the empty object. */
  function ObjectAtPath(value: Json, path: Path): Json {
    var found := Lookup(value, path);
    if found.Some? && found.value.JObject? then found.value else EMPTY_OBJECT
  }

  /** What a patch writes at a leaf path it owns: nothing for null, else its value; an empty object keeps an object. */
  function Written(before: Json, patch: Json, path: Path): Option<Json> {
    var leaf := Lookup(patch, path);
    if leaf == None || leaf == Some(JNull) then None
    else if leaf == Some(EMPTY_OBJECT) then Some(ObjectAtPath(before, path))
    else leaf
  }

  lemma {:induction false} MergedWithNothing(target: Json)
    requires target.JObject?
    ensures Merged(target, EMPTY_OBJECT) == target
  {
    assert Merged(target, EMPTY_OBJECT).fields == target.fields;
  }

  lemma {:induction false} OwnedPathsAreWritten(target: Json, patch: Json, path: Path)
    requires target.JObject? && patch.JObject? && Owns(patch, path)
    ensures Lookup(Merged(target, patch), path) == Written(target, patch, path)
    decreases |path|
  {
    var key := path[0];
    GetMerged(target, patch, key);
    if IsBranch(patch.fields[key]) {
      OwnedPathsAreWritten(ObjectAt(target, key), patch.fields[key], path[1..]);
      NothingInEmpty(path[1..]);
      assert Lookup(patch, path) == Lookup(patch.fields[key], path[1..]);
      ObjectBelow(target, path);
    } else {
      assert path[1..] == [];
      assert patch.fields[key].JObject? ==> patch.fields[key] == EMPTY_OBJECT;
      assert Lookup(patch, path) == Some(patch.fields[key]);
      assert Lookup(target, path) == Get(target, key) by {
        assert key in target.fields ==> Lookup(target.fields[key], path[1..]) == Some(target.fields[key]);
      }
      assert ObjectAtPath(target, path) == ObjectAt(target, key);
      MergedWithNothing(ObjectAt(target, key));
    }
  }

  lemma {:induction false} ObjectBelow(target: Json, path: Path)
    requires target.JObject? && |path| > 1
    ensures ObjectAtPath(target, path) == ObjectAtPath(ObjectAt(target, path[0]), path[1..])
  {
    var key, rest := path[0], path[1..];
    NothingInEmpty(rest);
    assert Lookup(target, path) == if key in target.fields then Lookup(target.fields[key], rest) else None;
    assert key in target.fields && !target.fields[key].JObject? ==> Lookup(target.fields[key], rest) == None;
  }

  lemma {:induction false} NothingInEmpty(path: Path)
    ensures path != [] ==> Lookup(EMPTY_OBJECT, path) == None
  {
  }

  /** A path that stops at or above something written, or passes through a leaf, overlaps an owned path. */
  lemma {:induction false} SomethingOverlaps(patch: Json, path: Path)
    requires patch.JObject?
    requires if path == [] then patch.fields != map[]
             else path[0] in patch.fields && (|path| == 1 || !IsBranch(patch.fields[path[0]]))
    ensures exists owned :: Owns(patch, owned) && Overlap(owned, path)
  {
    var leaf;
    if path == [] {
      leaf := SomeLeaf(patch);
    } else {
      leaf := LeafUnder(patch, path[0]);
    }
    assert Owns(patch, leaf) && Overlap(leaf, path);
  }

  lemma {:induction false} OverlapBelow(key: string, left: Path, right: Path)
    ensures Overlap([key] + left, [key] + right) <==> Overlap(left, right)
  {
    assert ([key] + left)[1..] == left && ([key] + right)[1..] == right;
  }

  lemma {:induction false} OtherPathsAreKept(target: Json, patch: Json, path: Path)
    requires target.JObject? && patch.JObject?
    requires forall owned :: Owns(patch, owned) ==> !Overlap(owned, path)
    ensures Lookup(Merged(target, patch), path) == Lookup(target, path)
    decreases |path|
  {
    if if path == [] then patch.fields != map[]
       else path[0] in patch.fields && (|path| == 1 || !IsBranch(patch.fields[path[0]])) {
      SomethingOverlaps(patch, path);
      assert false;
    } else if path == [] {
      MergedWithNothing(target);
    } else if path[0] in patch.fields {
      var key, rest := path[0], path[1..];
      GetMerged(target, patch, key);
      forall owned | Owns(patch.fields[key], owned)
        ensures !Overlap(owned, rest)
      {
        assert ([key] + owned)[1..] == owned && path == [key] + rest;
        assert Owns(patch, [key] + owned);
        OverlapBelow(key, owned, rest);
      }
      OtherPathsAreKept(ObjectAt(target, key), patch.fields[key], rest);
      NothingInEmpty(rest);
    }
  }
}
