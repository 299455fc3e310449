/** What the packer accepts, told by every value inside a value and how deep it lies. */
module PackLimits {
  import opened Bytes
  import opened Identity
  import opened MsgPack

  /** The `i`-th item of a list or value of an object. */
  function Child(v: Json, i: nat): (w: Option<Json>) {
    match v
    case List(items) => if i < |items| then Some(items[i]) else None
    case Dict(entries) => if i < |entries| then Some(entries[i].value) else None
    case _ => None
  }

  /** The value a path of positions leads to. */
  function At(v: Json, path: seq<nat>): (w: Option<Json>)
    decreases |path|
  {
    if path == [] then Some(v) else
      var child :- Child(v, path[0]);
      At(child, path[1..])
  }

  /** The value itself, without what it holds, can be written. */
  predicate Writable(v: Json) {
    match v
    case Null => true
    case Bool(_) => true
    case Int(i) => -9_223_372_036_854_775_808 <= i <= 18_446_744_073_709_551_615
    case Float(bits) => |bits| == 8
    case Str(s) => |s| <= 4_294_967_295
    case List(items) => |items| <= 4_294_967_295
    case Dict(entries) => |entries| <= 4_294_967_295 && forall e <- entries :: |e.key| <= 4_294_967_295
  }

  ghost predicate AllWritable(v: Json) {
    forall path :: At(v, path).Some? ==> Writable(At(v, path).value)
  }

  ghost predicate NoDeeper(v: Json, limit: int) {
    forall path: seq<nat> :: At(v, path).Some? ==> |path| <= limit
  }

  lemma AtChild(v: Json, i: nat, path: seq<nat>)
    requires Child(v, i).Some?
    ensures At(v, [i] + path) == At(Child(v, i).value, path)
  {
    assert ([i] + path)[1..] == path;
  }

  lemma ChildIsSmaller(v: Json, i: nat)
    requires Child(v, i).Some?
    ensures Child(v, i).value < v
  {
  }

  lemma AllWritableSplit(v: Json)
    ensures AllWritable(v) <==> Writable(v) && forall i: nat :: Child(v, i).Some? ==> AllWritable(Child(v, i).value)
  {
    hide Writable;
    if AllWritable(v) {
      assert At(v, []) == Some(v);
      forall i: nat, path | Child(v, i).Some? && At(Child(v, i).value, path).Some? ensures Writable(At(Child(v, i).value, path).value) {
        AtChild(v, i, path);
      }
    }
    if Writable(v) && forall i: nat :: Child(v, i).Some? ==> AllWritable(Child(v, i).value) {
      forall path | At(v, path).Some? ensures Writable(At(v, path).value) {
        if path != [] {
          assert AllWritable(Child(v, path[0]).value);
        }
      }
    }
  }

  lemma NoDeeperSplit(v: Json, limit: int)
    ensures NoDeeper(v, limit) <==> limit >= 0 && forall i: nat :: Child(v, i).Some? ==> NoDeeper(Child(v, i).value, limit - 1)
  {
    if NoDeeper(v, limit) {
      assert At(v, []) == Some(v);
      forall i: nat, path: seq<nat> | Child(v, i).Some? && At(Child(v, i).value, path).Some? ensures |path| <= limit - 1 {
        AtChild(v, i, path);
        assert |[i] + path| <= limit;
      }
    }
    if limit >= 0 && forall i: nat :: Child(v, i).Some? ==> NoDeeper(Child(v, i).value, limit - 1) {
      forall path: seq<nat> | At(v, path).Some? ensures |path| <= limit {
        if path != [] {
          assert NoDeeper(Child(v, path[0]).value, limit - 1) && At(Child(v, path[0]).value, path[1..]).Some?;
          assert |path[1..]| <= limit - 1;
        }
      }
    }
  }

  lemma {:induction false} SizedExactly(v: Json)
    ensures Sized(v) <==> AllWritable(v)
  {
    hide AllWritable;
    AllWritableSplit(v);
    forall i: nat | Child(v, i).Some? ensures Sized(Child(v, i).value) <==> AllWritable(Child(v, i).value) {
      ChildIsSmaller(v, i);
      SizedExactly(Child(v, i).value);
    }
    match v
    case List(items) =>
      assert forall i :: 0 <= i < |items| ==> Child(v, i) == Some(items[i]);
      assert (forall i: nat :: Child(v, i).Some? ==> Sized(Child(v, i).value)) <==> forall w <- items :: Sized(w);
    case Dict(entries) =>
      assert forall i :: 0 <= i < |entries| ==> Child(v, i) == Some(entries[i].value);
      assert (forall i: nat :: Child(v, i).Some? ==> Sized(Child(v, i).value)) <==> forall e <- entries :: Sized(e.value);
    case _ =>
  }

  lemma {:induction false} ShallowExactly(v: Json, limit: int)
    ensures Shallow(v, limit) <==> NoDeeper(v, limit)
    decreases v
  {
    hide NoDeeper;
    NoDeeperSplit(v, limit);
    forall i: nat | Child(v, i).Some? ensures Shallow(Child(v, i).value, limit - 1) <==> NoDeeper(Child(v, i).value, limit - 1) {
      ChildIsSmaller(v, i);
      ShallowExactly(Child(v, i).value, limit - 1);
    }
    match v
    case List(items) =>
      if Shallow(v, limit) {
        forall i: nat | Child(v, i).Some? ensures Shallow(Child(v, i).value, limit - 1) {
          assert items[i] in items;
        }
      }
      if forall i: nat :: Child(v, i).Some? ==> Shallow(Child(v, i).value, limit - 1) {
        forall w | w in items ensures Shallow(w, limit - 1) {
          var i :| 0 <= i < |items| && items[i] == w;
          assert Child(v, i) == Some(w);
        }
      }
    case Dict(entries) =>
      if Shallow(v, limit) {
        forall i: nat | Child(v, i).Some? ensures Shallow(Child(v, i).value, limit - 1) {
          assert entries[i] in entries;
        }
      }
      if forall i: nat :: Child(v, i).Some? ==> Shallow(Child(v, i).value, limit - 1) {
        forall e | e in entries ensures Shallow(e.value, limit - 1) {
          var i :| 0 <= i < |entries| && entries[i] == e;
          assert Child(v, i) == Some(e.value);
        }
      }
    case _ =>
  }

  /** A value is packed exactly if everything in it can be written and nothing lies more than 511 containers deep. */
  lemma PackableExactly(v: Json)
    ensures Packable(v) <==> forall path :: At(v, path).Some? ==> Writable(At(v, path).value) && |path| <= 511
  {
    SizedExactly(v);
    ShallowExactly(v, 511);
  }
}
