/** AVMetadata: an ordered list of (key, value) string pairs, changed in place. */
module AVMetadata {

  type Pair = (string, string)

  /** Some pair has key `key`. */
  predicate HasKey(d: seq<Pair>, key: string)
  {
    exists i :: 0 <= i < |d| && d[i].0 == key
  }

  /** No key occurs twice. */
  predicate UniqueKeys(d: seq<Pair>)
  {
    forall i, j :: 0 <= i < j < |d| ==> d[i].0 != d[j].0
  }

  /** The position of the first pair with key `key`, or `|d|` when there is none. */
  function KeyIndex(d: seq<Pair>, key: string): (i: nat)
    ensures i <= |d|
    ensures i < |d| ==> d[i].0 == key
    ensures forall j :: 0 <= j < i ==> d[j].0 != key
    ensures i < |d| <==> HasKey(d, key)
  {
    if d == [] then 0
    else if d[0].0 == key then 0
    else
      var i := 1 + KeyIndex(d[1..], key);
      assert forall j :: 1 <= j < |d| ==> d[j] == d[1..][j - 1];
      i
  }

  /** What `add_pair(key, value)` leaves: the first pair with that key gets the
      new value in place, or, when there is none, the pair is appended. */
  function Upserted(d: seq<Pair>, key: string, value: string): (r: seq<Pair>)
    ensures |r| == if HasKey(d, key) then |d| else |d| + 1
  {
    var i := KeyIndex(d, key);
    if i < |d| then d[i := (key, value)] else d + [(key, value)]
  }

  /** What `remove_key(key)` leaves: the list without its first pair with that key. */
  function RemovedFirst(d: seq<Pair>, key: string): (r: seq<Pair>)
    ensures |r| == if HasKey(d, key) then |d| - 1 else |d|
  {
    var i := KeyIndex(d, key);
    if i < |d| then d[..i] + d[i + 1..] else d
  }

  /** After `add_pair(key, value)` the key is present and its first pair holds `value`. */
  lemma UpsertedFindsValue(d: seq<Pair>, key: string, value: string)
    ensures HasKey(Upserted(d, key, value), key)
    ensures var u := Upserted(d, key, value); u[KeyIndex(u, key)] == (key, value)
  {
    var u := Upserted(d, key, value);
    var i := KeyIndex(d, key);
    if i < |d| {
      assert u[i].0 == key;
      assert forall j :: 0 <= j < i ==> u[j] == d[j];
    } else {
      assert u[|d|].0 == key;
      assert forall j :: 0 <= j < |d| ==> u[j] == d[j];
    }
  }

  /** `add_pair` on a present key changes only that pair's value: the length
      and every key, in order, stay as they were. */
  lemma UpsertedExisting(d: seq<Pair>, key: string, value: string)
    requires HasKey(d, key)
    ensures var u := Upserted(d, key, value);
      |u| == |d| && (forall j :: 0 <= j < |d| ==> u[j].0 == d[j].0) &&
      (forall j :: 0 <= j < |d| && j != KeyIndex(d, key) ==> u[j] == d[j])
  {
  }

  /** `add_pair` on a new key appends the pair at the end. */
  lemma UpsertedNew(d: seq<Pair>, key: string, value: string)
    requires !HasKey(d, key)
    ensures Upserted(d, key, value) == d + [(key, value)]
  {
  }

  /** `add_pair` keeps keys unique. */
  lemma UpsertedKeepsUnique(d: seq<Pair>, key: string, value: string)
    requires UniqueKeys(d)
    ensures UniqueKeys(Upserted(d, key, value))
  {
    var u := Upserted(d, key, value);
    if !HasKey(d, key) {
      forall i, j | 0 <= i < j < |u| ensures u[i].0 != u[j].0 {
        if j == |d| {
          assert u[i] == d[i];
        } else {
          assert u[i] == d[i] && u[j] == d[j];
        }
      }
    }
  }

  /** Removing a key just added to a list without it gives the list back. */
  lemma RemoveUndoesNewUpsert(d: seq<Pair>, key: string, value: string)
    requires !HasKey(d, key)
    ensures RemovedFirst(Upserted(d, key, value), key) == d
  {
    var u := Upserted(d, key, value);
    assert KeyIndex(u, key) == |d| by {
      assert u[|d|].0 == key;
      assert forall j :: 0 <= j < |d| ==> u[j] == d[j];
    }
    assert u[..|d|] == d;
  }

  /** With unique keys, removing a key removes it entirely, keeps every other
      key, and shortens the list by one exactly when the key was present. */
  lemma RemovedFirstUnique(d: seq<Pair>, key: string, other: string)
    requires UniqueKeys(d) && other != key
    ensures !HasKey(RemovedFirst(d, key), key)
    ensures HasKey(RemovedFirst(d, key), other) <==> HasKey(d, other)
    ensures |RemovedFirst(d, key)| == if HasKey(d, key) then |d| - 1 else |d|
    ensures UniqueKeys(RemovedFirst(d, key))
  {
    var i := KeyIndex(d, key);
    if i < |d| {
      var r := RemovedFirst(d, key);
      RemovedAt(d, i);
      assert !HasKey(r, key) by {
        forall j | 0 <= j < |r| ensures r[j].0 != key {
          if j >= i {
            assert r[j] == d[j + 1];
          }
        }
      }
      forall a, b | 0 <= a < b < |r| ensures r[a].0 != r[b].0 {
        var a', b' := if a < i then a else a + 1, if b < i then b else b + 1;
        assert r[a] == d[a'] && r[b] == d[b'] && a' < b';
      }
      if HasKey(d, other) {
        var k :| 0 <= k < |d| && d[k].0 == other;
        if k < i {
          assert r[k].0 == other;
        } else {
          assert r[k - 1].0 == other;
        }
      }
    }
  }

  /** The list with the pair at `i` taken out: the pairs before `i` stay, the rest move down one. */
  lemma RemovedAt(d: seq<Pair>, i: nat)
    requires i < |d|
    ensures var r := d[..i] + d[i + 1..];
      |r| == |d| - 1 &&
      (forall j :: 0 <= j < i ==> r[j] == d[j]) &&
      (forall j :: i <= j < |r| ==> r[j] == d[j + 1])
  {
  }

  /** An AVMetadata object: the list of pairs, changed in place. */
  class Metadata {
    var data: seq<Pair>

    /** `AVMetadata()`: no pairs. */
    constructor ()
      ensures data == []
    {
      data := [];
    }

    /** `clear()`. */
    method Clear()
      modifies this
      ensures data == []
    {
      data := [];
    }

    /** `contains_key(key)`: a scan for a pair with that key. */
    method ContainsKey(key: string) returns (found: bool)
      ensures found <==> HasKey(data, key)
    {
      for i := 0 to |data|
        invariant forall j :: 0 <= j < i ==> data[j].0 != key
      {
        if data[i].0 == key {
          return true;
        }
      }
      return false;
    }

    /** `remove_key(key)`: removes the first pair with that key and reports
        whether there was one; otherwise nothing changes. */
    method RemoveKey(key: string) returns (removed: bool)
      modifies this
      ensures removed <==> HasKey(old(data), key)
      ensures data == RemovedFirst(old(data), key)
      ensures !removed ==> data == old(data)
    {
      var i := 0;
      while i < |data|
        invariant 0 <= i <= |data|
        invariant forall j :: 0 <= j < i ==> data[j].0 != key
      {
        if data[i].0 == key {
          data := data[..i] + data[i + 1..];
          return true;
        }
        i := i + 1;
      }
      return false;
    }

    /** `add_pair(key, value)`: overwrites the value of the first pair with that
        key, or appends the pair when the key is new. */
    method AddPair(key: string, value: string)
      modifies this
      ensures data == Upserted(old(data), key, value)
      ensures HasKey(data, key)
      ensures UniqueKeys(old(data)) ==> UniqueKeys(data)
    {
      UpsertedFindsValue(data, key, value);
      if UniqueKeys(data) {
        UpsertedKeepsUnique(data, key, value);
      }
      for i := 0 to |data|
        invariant forall j :: 0 <= j < i ==> data[j].0 != key
        invariant data == old(data)
      {
        if data[i].0 == key {
          data := data[i := (data[i].0, value)];
          return;
        }
      }
      data := data + [(key, value)];
    }
  }
}
