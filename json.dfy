/**
  JSON values as both the Python backend and the TypeScript clients see
  them after parsing. An object is the sequence of its members in insertion
  order; reading a key finds the last member with that key, which is what
  the parsers of both languages keep when a key repeats.
*/
module Json {
  import opened Common

  datatype Json =
    | JNull
    | JBool(b: bool)
    | JNum(n: real)
    | JStr(s: string)
    | JArr(items: seq<Json>)
    | JObj(members: seq<(string, Json)>)

  type Members = seq<(string, Json)>

  function KeysOf(ms: Members): (r: seq<string>)
    ensures |r| == |ms|
    ensures forall i :: 0 <= i < |ms| ==> r[i] == ms[i].0
  {
    if ms == [] then [] else [ms[0].0] + KeysOf(ms[1..])
  }

  predicate HasKey(ms: Members, k: string) {
    exists i :: 0 <= i < |ms| && ms[i].0 == k
  }

  /** The value of the last member named `k`. */
  function Get(ms: Members, k: string): (r: Option<Json>)
    ensures r.Some? <==> HasKey(ms, k)
    ensures r.Some? ==> exists i :: 0 <= i < |ms| && ms[i] == (k, r.value)
  {
    if ms == [] then None
    else
      var rest := Get(ms[1..], k);
      if rest.Some? then
        assert exists i :: 0 <= i < |ms[1..]| && ms[1..][i] == (k, rest.value);
        var i :| 0 <= i < |ms[1..]| && ms[1..][i] == (k, rest.value);
        assert ms[i + 1] == (k, rest.value);
        rest
      else if ms[0].0 == k then Some(ms[0].1)
      else
        assert forall i :: 1 <= i < |ms| ==> ms[i] == ms[1..][i - 1];
        None
  }

  /** No key occurs twice. */
  predicate UniqueKeys(ms: Members) {
    forall i, j :: 0 <= i < j < |ms| ==> ms[i].0 != ms[j].0
  }

  /**
    `obj[k] = v` on a JavaScript object or a Python dict: an existing key
    keeps its position and takes the new value, a new key goes last.
  */
  function Assign(ms: Members, k: string, v: Json): (r: Members)
    ensures HasKey(ms, k) ==> |r| == |ms|
    ensures !HasKey(ms, k) ==> r == ms + [(k, v)]
    ensures forall i :: 0 <= i < |ms| ==> r[i].0 == ms[i].0
    ensures forall i :: 0 <= i < |ms| && ms[i].0 != k ==> r[i] == ms[i]
    ensures forall i :: 0 <= i < |ms| && ms[i].0 == k ==> r[i] == (k, v)
    ensures UniqueKeys(ms) ==> UniqueKeys(r)
  {
    if HasKey(ms, k) then seq(|ms|, i requires 0 <= i < |ms| => if ms[i].0 == k then (k, v) else ms[i])
    else ms + [(k, v)]
  }

  /** Reading after `obj[k] = v` gives `v` at `k` and what was there before at every other key. */
  lemma {:induction false} GetAfterAssign(ms: Members, k: string, v: Json, k2: string)
    ensures Get(Assign(ms, k, v), k2) == if k2 == k then Some(v) else Get(ms, k2)
  {
    if ms != [] {
      var r := Assign(ms, k, v);
      AssignSplits(ms, k, v);
      GetUnfold(ms, k2);
      GetUnfold(r, k2);
      if ms[0].0 == k && !HasKey(ms[1..], k) {
        assert r[1..] == ms[1..];
      } else {
        GetAfterAssign(ms[1..], k, v, k2);
      }
    }
  }

  /** `Get` looks in the rest first and falls back on the first member. */
  lemma GetUnfold(ms: Members, k: string)
    requires ms != []
    ensures Get(ms, k) == if Get(ms[1..], k).Some? then Get(ms[1..], k)
                          else if ms[0].0 == k then Some(ms[0].1) else None
  {
  }

  /** `Assign` on a non-empty object: its first member, and the assignment into the rest. */
  lemma AssignSplits(ms: Members, k: string, v: Json)
    requires ms != []
    ensures Assign(ms, k, v)[0] == if ms[0].0 == k then (k, v) else ms[0]
    ensures ms[0].0 == k && !HasKey(ms[1..], k) ==> Assign(ms, k, v)[1..] == ms[1..]
    ensures !(ms[0].0 == k && !HasKey(ms[1..], k)) ==> Assign(ms, k, v)[1..] == Assign(ms[1..], k, v)
  {
    var r := Assign(ms, k, v);
    var tail := ms[1..];
    assert forall i :: 0 <= i < |tail| ==> tail[i] == ms[i + 1];
    if HasKey(tail, k) {
      var j :| 0 <= j < |tail| && tail[j].0 == k;
      assert ms[j + 1].0 == k;
    }
    if ms[0].0 == k && !HasKey(tail, k) {
      assert r[1..] == tail;
    } else if !HasKey(tail, k) {
      assert forall j :: 0 < j < |ms| ==> ms[j] == tail[j - 1];
      assert !HasKey(ms, k);
      assert r[1..] == Assign(tail, k, v);
    } else {
      assert r[1..] == Assign(tail, k, v);
    }
  }

  /** The members as a dictionary: every member assigned in turn into `{}`. */
  function ToDict(ms: Members): (r: Members)
    ensures UniqueKeys(r)
    decreases |ms|
  {
    if ms == [] then []
    else
      var prefix := ToDict(ms[..|ms| - 1]);
      Assign(prefix, ms[|ms| - 1].0, ms[|ms| - 1].1)
  }

  /** Every entry of the dictionary is one of the members it was built from. */
  lemma {:induction false} ToDictEntriesAreMembers(ms: Members)
    ensures forall i :: 0 <= i < |ToDict(ms)| ==> exists j :: 0 <= j < |ms| && ms[j] == ToDict(ms)[i]
    decreases |ms|
  {
    if ms != [] {
      var init := ms[..|ms| - 1];
      var last := ms[|ms| - 1];
      ToDictEntriesAreMembers(init);
      var prefix := ToDict(init);
      var d := ToDict(ms);
      assert d == Assign(prefix, last.0, last.1);
      forall i | 0 <= i < |d|
        ensures exists j :: 0 <= j < |ms| && ms[j] == d[i]
      {
        if i < |prefix| && prefix[i].0 != last.0 {
          assert d[i] == prefix[i];
          var j :| 0 <= j < |init| && init[j] == prefix[i];
          assert ms[j] == d[i];
        } else {
          assert d[i] == last;
          assert ms[|ms| - 1] == d[i];
        }
      }
    } else {
      assert ToDict(ms) == [];
    }
  }

  /** Reading a key of the dictionary reads the last member with that key. */
  lemma {:induction false} ToDictGet(ms: Members, k: string)
    ensures Get(ToDict(ms), k) == Get(ms, k)
    decreases |ms|
  {
    if ms != [] {
      var init := ms[..|ms| - 1];
      var last := ms[|ms| - 1];
      ToDictGet(init, k);
      GetAfterAssign(ToDict(init), last.0, last.1, k);
      GetLastMember(init, last, k);
      assert ms == init + [last];
    }
  }

  lemma {:induction false} GetLastMember(init: Members, last: (string, Json), k: string)
    ensures Get(init + [last], k) == if last.0 == k then Some(last.1) else Get(init, k)
    decreases |init|
  {
    if init == [] {
      assert [last][1..] == [];
    } else {
      assert (init + [last])[1..] == init[1..] + [last];
      GetLastMember(init[1..], last, k);
    }
  }
}
