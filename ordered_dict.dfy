/**
  A Python `dict` from strings to integers, as the bot uses it for both of its
  tables (slogan -> score and user id -> total). Python dictionaries iterate in
  insertion order, and that order is observable: it decides which slogan is
  matched first and how leaderboard ties are broken. So a table is an
  association list whose keys are distinct, and the dictionary operations keep
  the order as CPython does: assigning to an existing key keeps its position,
  assigning to a new key appends it, and deleting a key closes the gap.
*/
module OrderedDict {
  import opened Wrappers

  type Entry = (string, int)
  type Dict = seq<Entry>

  /** `k in d`: some entry carries the key `k`. */
  predicate HasKey(d: Dict, k: string): (r: bool)
    ensures r <==> exists i :: 0 <= i < |d| && d[i].0 == k
  {
    d != [] && (d[0].0 == k || HasKey(d[1..], k))
  }

  /** No key occurs twice: every table a Python dict can hold has this shape. */
  ghost predicate Distinct(d: Dict) {
    forall i, j :: 0 <= i < j < |d| ==> d[i].0 != d[j].0
  }

  /** `d[k]` when `k in d`, nothing otherwise. */
  function Get(d: Dict, k: string): (r: Option<int>)
    ensures r.Some? <==> HasKey(d, k)
    ensures r.Some? ==> (k, r.value) in d
  {
    if d == [] then None
    else if d[0].0 == k then Some(d[0].1)
    else Get(d[1..], k)
  }

  /** `d.get(k, default)`. */
  function GetDefault(d: Dict, k: string, default: int): (r: int)
    ensures HasKey(d, k) ==> (k, r) in d
    ensures !HasKey(d, k) ==> r == default
  {
    Get(d, k).GetOr(default)
  }

  /** In a table with distinct keys, the value `Get` yields is the only one stored under `k`. */
  lemma {:induction false} GetUnique(d: Dict, k: string, v: int)
    requires Distinct(d)
    ensures (k, v) in d <==> Get(d, k) == Some(v)
  {
    if d != [] && d[0].0 != k {
      assert Distinct(d[1..]) by {
        forall i, j | 0 <= i < j < |d[1..]| ensures d[1..][i].0 != d[1..][j].0 {
          assert d[1..][i] == d[i + 1] && d[1..][j] == d[j + 1];
        }
      }
      GetUnique(d[1..], k, v);
      assert (k, v) in d <==> (k, v) in d[1..] by {
        assert d == [d[0]] + d[1..];
      }
    } else if d != [] && (k, v) in d {
      var j :| 0 <= j < |d| && d[j] == (k, v);
      assert j == 0;
    }
  }

  /**
    The assignment `d[k] = v`: an existing key is overwritten where it stands,
    a new key is appended at the end, and every other entry stays where and
    what it was.
  */
  function Put(d: Dict, k: string, v: int): (r: Dict)
    requires Distinct(d)
    ensures Get(r, k) == Some(v)
    ensures forall k' :: k' != k ==> Get(r, k') == Get(d, k')
    ensures |r| == if HasKey(d, k) then |d| else |d| + 1
    ensures forall i :: 0 <= i < |d| ==> r[i] == if d[i].0 == k then (k, v) else d[i]
    ensures !HasKey(d, k) ==> r[|d|] == (k, v)
  {
    if d == [] then [(k, v)]
    else if d[0].0 == k then [(k, v)] + d[1..]
    else [d[0]] + Put(d[1..], k, v)
  }

  /** Assignment keeps the keys distinct. */
  lemma PutDistinct(d: Dict, k: string, v: int)
    requires Distinct(d)
    ensures Distinct(Put(d, k, v))
  {
    var r := Put(d, k, v);
    forall a, b | 0 <= a < b < |r| ensures r[a].0 != r[b].0 {
      assert r[a].0 == d[a].0;
      if b < |d| {
        assert r[b].0 == d[b].0;
      }
    }
  }

  /**
    The statement `del d[k]`, which the bot only executes for a key that is
    present: exactly the entry of `k` goes and the others keep their relative
    order. Without the key the table is returned as it is.
  */
  function Remove(d: Dict, k: string): (r: Dict)
    requires Distinct(d)
    ensures Distinct(r) && !HasKey(r, k)
    ensures forall k' :: k' != k ==> Get(r, k') == Get(d, k')
    ensures !HasKey(d, k) ==> r == d
    ensures HasKey(d, k) ==>
              exists i :: 0 <= i < |d| && d[i].0 == k && |r| == |d| - 1 &&
                (forall j :: 0 <= j < i ==> r[j] == d[j]) &&
                (forall j :: i <= j < |r| ==> r[j] == d[j + 1])
  {
    if d == [] then []
    else if d[0].0 == k then d[1..]
    else [d[0]] + Remove(d[1..], k)
  }

  /** The same table seen as a mapping, built the way `dict(items)` builds it. */
  function ToMap(d: Dict): map<string, int> {
    if d == [] then map[] else ToMap(d[..|d| - 1])[d[|d| - 1].0 := d[|d| - 1].1]
  }

  /** Looking a key up in the association list agrees with the mapping view. */
  lemma {:induction false} GetAgreesWithMap(d: Dict, k: string)
    requires Distinct(d)
    ensures Get(d, k) == if k in ToMap(d) then Some(ToMap(d)[k]) else None
  {
    if d != [] {
      var init, last := d[..|d| - 1], d[|d| - 1];
      assert Distinct(init);
      GetAgreesWithMap(init, k);
      GetAppend(init, last, k);
      assert d == init + [last];
    }
  }

  /** A lookup after an append reaches the new entry only for a key that was missing. */
  lemma {:induction false} GetAppend(d: Dict, e: Entry, k: string)
    ensures Get(d + [e], k) == if HasKey(d, k) then Get(d, k) else if e.0 == k then Some(e.1) else None
  {
    if d != [] {
      assert (d + [e])[1..] == d[1..] + [e];
      GetAppend(d[1..], e, k);
    }
  }
}
