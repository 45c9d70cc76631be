/**
 The ordered object (pkg/jsonutil/object.go): members in the order they were set, and an index of them that is
 made when there are many and kept from then on.
 */
module Objects {
  import opened Lines
  import opened Json

  /** How many members an object holds before it keeps an index. */
  const INDEX_AT := 32

  /** The members without a key. */
  function Without(members: seq<Member>, key: string): seq<Member> {
    var n := Find(members, key);
    if n < |members| then members[..n] + members[n + 1..] else members
  }

  /** The index has exactly the positions of the members. */
  ghost predicate Indexes(index: map<string, nat>, members: seq<Member>) {
    && (forall i :: 0 <= i < |members| ==> members[i].key in index && index[members[i].key] == i)
    && (forall key :: key in index ==> index[key] < |members| && members[index[key]].key == key)
  }

  class Object {
    var members: seq<Member>
    var index: Option<map<string, nat>>

    /** No key twice, and an index that is there tells where each is. */
    ghost predicate Valid()
      reads this
    {
      DistinctKeys(members) && (index.Some? ==> Indexes(index.value, members))
    }

    constructor ()
      ensures Valid() && members == []
    {
      members, index := [], None;
    }

    /** The position of a key: looked up in the index, or found by going through the members (find). */
    method Position(key: string) returns (found: Option<nat>)
      requires Valid()
      ensures found == if Find(members, key) < |members| then Some(Find(members, key)) else None
    {
      if index.Some? {
        LookedUp(index.value, members, key);
        return if key in index.value then Some(index.value[key]) else None;
      }
      for i := 0 to |members|
        invariant forall k :: 0 <= k < i ==> members[k].key != key
      {
        if members[i].key == key {
          return Some(i);
        }
      }
      found := None;
    }

    /** The index over every member (reindex). */
    method Reindex()
      requires DistinctKeys(members)
      modifies this`index
      ensures Valid() && index.Some?
    {
      var all: map<string, nat> := map[];
      for i := 0 to |members|
        invariant Indexes(all, members[..i])
      {
        all := all[members[i].key := i];
      }
      assert members[..|members|] == members;
      index := Some(all);
    }

    /** Insert a key, or replace its value where it stands (Set). */
    method Set(key: string, value: Json)
      requires Valid()
      modifies this
      ensures Valid() && members == SetKey(old(members), key, value)
      ensures old(index.Some?) ==> index.Some?
      ensures |members| > INDEX_AT && |members| > old(|members|) ==> index.Some?
    {
      SetThenGet(members, key, value, key);
      var i := Position(key);
      if i.Some? {
        members := members[i.value := Member(key, value)];
        return;
      }
      members := members + [Member(key, value)];
      if index.Some? {
        index := Some(index.value[key := |members| - 1]);
      } else if |members| > INDEX_AT {
        Reindex();
      }
    }

    /** Get */
    method Value(key: string) returns (value: Option<Json>)
      requires Valid()
      ensures value == Get(members, key)
    {
      var i := Position(key);
      value := if i.None? then None else Some(members[i.value].value);
    }

    /** Remove a key if it is there (Delete). */
    method Delete(key: string)
      requires Valid()
      modifies this
      ensures Valid() && members == Without(old(members), key)
      ensures index.Some? == old(index.Some?)
    {
      var i := Position(key);
      if i.None? {
        return;
      }
      members := members[..i.value] + members[i.value + 1..];
      if index.Some? {
        Reindex();
      }
    }
  }

  /** A lookup finds what going through the members finds. */
  lemma {:induction false} LookedUp(index: map<string, nat>, members: seq<Member>, key: string)
    requires Indexes(index, members)
    ensures key in index <==> Find(members, key) < |members|
    ensures key in index ==> index[key] == Find(members, key)
  {
    var n := Find(members, key);
    if key in index {
      assert members[index[key]].key == key;
      assert n <= index[key];
    }
    if n < |members| {
      assert members[n].key == key;
    }
  }

  lemma {:induction false} WithoutShifts(members: seq<Member>, key: string)
    requires Find(members, key) < |members|
    ensures
      var n, after := Find(members, key), Without(members, key);
      && |after| == |members| - 1
      && (forall i :: 0 <= i < n ==> after[i] == members[i])
      && (forall i :: n <= i < |after| ==> after[i] == members[i + 1])
  {
    hide Find;
  }

  /** Deleting a key takes that key away and keeps the others, in their order. */
  lemma {:induction false} DeleteThenGet(members: seq<Member>, key: string, other: string)
    requires DistinctKeys(members)
    ensures DistinctKeys(Without(members, key)) && Get(Without(members, key), key) == None
    ensures other != key ==> Get(Without(members, key), other) == Get(members, other)
  {
    hide Find, Without;
    var n, after := Find(members, key), Without(members, key);
    if n == |members| {
      NotThere(members, key);
    } else {
      WithoutShifts(members, key);
      if other != key {
        var m, m' := Find(members, other), Find(after, other);
        if m < |members| {
          assert after[if m < n then m else m - 1] == members[m];
        }
        if m' < |after| {
          assert members[if m' < n then m' else m' + 1] == after[m'];
        }
      }
    }
  }

  lemma {:induction false} NotThere(members: seq<Member>, key: string)
    requires Find(members, key) == |members|
    ensures Without(members, key) == members && Get(members, key) == None
  {
  }

  /** Setting a key that is new and deleting it again leaves the object as it was. */
  lemma {:induction false} DeleteUndoesSet(members: seq<Member>, key: string, value: Json)
    requires Get(members, key) == None
    ensures Without(SetKey(members, key, value), key) == members
  {
    var after := SetKey(members, key, value);
    assert after == members + [Member(key, value)];
    assert forall i :: 0 <= i < |members| ==> after[i] == members[i];
    assert after[|members|].key == key;
    assert Find(after, key) == |members|;
  }
}
