/** The values jsonize writes (pkg/jsonutil/object.go): objects keep the order of their members. */
module Json {
  import opened Lines

  datatype Json =
    | Null
    | Bool(bit: bool)
    | Number(value: real)
    | Str(text: string)
    | Arr(items: seq<Json>)
    | Obj(members: seq<Member>)

  datatype Member = Member(key: string, value: Json)

  /** The position of a key, or the number of members. */
  function Find(members: seq<Member>, key: string): (n: nat)
    ensures n <= |members|
    ensures n < |members| ==> members[n].key == key
    ensures forall i :: 0 <= i < n ==> members[i].key != key
  {
    if members == [] || members[0].key == key then 0 else 1 + Find(members[1..], key)
  }

  /** Insert or replace a key; replacing keeps the position (Object.Set). */
  function SetKey(members: seq<Member>, key: string, value: Json): seq<Member> {
    var n := Find(members, key);
    if n < |members| then members[n := Member(key, value)] else members + [Member(key, value)]
  }

  /** The value of a key (Object.Get). */
  function Get(members: seq<Member>, key: string): Option<Json> {
    var n := Find(members, key);
    if n < |members| then Some(members[n].value) else None
  }

  ghost predicate DistinctKeys(members: seq<Member>) {
    forall i, j :: 0 <= i < j < |members| ==> members[i].key != members[j].key
  }

  lemma {:induction false} SetThenGet(members: seq<Member>, key: string, value: Json, other: string)
    ensures Get(SetKey(members, key, value), key) == Some(value)
    ensures other != key ==> Get(SetKey(members, key, value), other) == Get(members, other)
    ensures DistinctKeys(members) ==> DistinctKeys(SetKey(members, key, value))
  {
    var n := Find(members, key);
    var after := SetKey(members, key, value);
    var m, m' := Find(members, other), Find(after, other);
    assert forall i :: 0 <= i < |members| ==> after[i].key == members[i].key;
    assert after[n].key == key;
    if other != key {
      assert m' == if m < |members| then m else |after| by {
        if m < |members| { assert after[m].key == other; }
        if m' < |members| { assert members[m'].key == other; }
      }
    }
  }
}
