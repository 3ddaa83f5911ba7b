/**
  The leaderboard query: `sorted(users.items(), key=score, reverse=True)[:10]`.
  Python's sort is stable, and `reverse=True` keeps it so: users with equal
  scores stay in the table's insertion order.
*/
module Leaderboard {
  import opened OrderedDict

  /** How many users the leaderboard shows. */
  const TopN: nat := 10

  ghost predicate NonIncreasing(s: Dict) {
    forall i, j :: 0 <= i < j < |s| ==> s[i].1 >= s[j].1
  }

  /** The entries of `s` whose score is `v`, in their order in `s`. */
  function WithScore(s: Dict, v: int): Dict {
    if s == [] then [] else (if s[0].1 == v then [s[0]] else []) + WithScore(s[1..], v)
  }

  /**
    Insertion of one entry into a descending run, after every entry with a
    strictly higher score and before those with an equal or lower one.
  */
  function Insert(e: Entry, s: Dict): (r: Dict)
    requires NonIncreasing(s)
    ensures NonIncreasing(r)
    ensures multiset(r) == multiset(s) + multiset{e}
    ensures |r| == |s| + 1 && (r[0] == e || (s != [] && r[0] == s[0]))
  {
    if s == [] then [e]
    else if s[0].1 > e.1 then
      assert s == [s[0]] + s[1..];
      [s[0]] + Insert(e, s[1..])
    else
      [e] + s
  }

  /** The inserted entry goes before the entries of `s` that share its score. */
  lemma {:induction false} InsertWithScore(e: Entry, s: Dict, v: int)
    requires NonIncreasing(s)
    ensures WithScore(Insert(e, s), v) == if e.1 == v then [e] + WithScore(s, v) else WithScore(s, v)
  {
    if s != [] && s[0].1 > e.1 {
      InsertWithScore(e, s[1..], v);
      assert ([s[0]] + Insert(e, s[1..]))[1..] == Insert(e, s[1..]);
    }
  }

  /** A stable sort of the entries by score, highest first. */
  function SortByScore(s: Dict): (r: Dict)
    ensures NonIncreasing(r)
    ensures multiset(r) == multiset(s)
    ensures |r| == |s|
  {
    if s == [] then []
    else
      assert s == [s[0]] + s[1..];
      Insert(s[0], SortByScore(s[1..]))
  }

  /** The sort is stable: for every score, its entries keep their order. */
  lemma {:induction false} SortStable(s: Dict, v: int)
    ensures WithScore(SortByScore(s), v) == WithScore(s, v)
  {
    if s != [] {
      var rest := SortByScore(s[1..]);
      assert SortByScore(s) == Insert(s[0], rest);
      SortStable(s[1..], v);
      InsertWithScore(s[0], rest, v);
      assert WithScore(s, v) == (if s[0].1 == v then [s[0]] else []) + WithScore(s[1..], v);
    }
  }

  /** The leaderboard: the first `TopN` users of the sorted table. */
  function Top(users: Dict): (board: Dict)
    ensures |board| == if |users| < TopN then |users| else TopN
    ensures NonIncreasing(board)
  {
    var sorted := SortByScore(users);
    sorted[..if |sorted| < TopN then |sorted| else TopN]
  }

  /** Taking a prefix keeps, for every score, a prefix of the entries with that score. */
  lemma {:induction false} WithScorePrefix(s: Dict, n: nat, v: int)
    requires n <= |s|
    ensures WithScore(s[..n], v) <= WithScore(s, v)
  {
    if n > 0 {
      assert s[..n][1..] == s[1..][..n - 1];
      WithScorePrefix(s[1..], n - 1, v);
    }
  }

  /**
    The leaderboard holds min(10, number of users) entries, highest score
    first; each of them is an entry of the score table; nobody left off it
    has a higher score than anybody on it; and users with equal scores appear
    in the table's insertion order (the entries with any one score are a
    prefix of that score's entries in the table).
  */
  lemma TopSpec(users: Dict)
    ensures |Top(users)| == if |users| < TopN then |users| else TopN
    ensures NonIncreasing(Top(users))
    ensures forall e :: e in Top(users) ==> e in users
    ensures forall e, i :: e in users && e !in Top(users) && 0 <= i < |Top(users)| ==> Top(users)[i].1 >= e.1
    ensures forall v :: WithScore(Top(users), v) <= WithScore(users, v)
  {
    var sorted := SortByScore(users);
    var board := Top(users);
    var n := |board|;
    assert board == sorted[..n];
    forall e | e in board ensures e in users {
      assert e in multiset(sorted);
    }
    forall e, i | e in users && e !in board && 0 <= i < n ensures board[i].1 >= e.1 {
      assert e in multiset(sorted);
      var k :| 0 <= k < |sorted| && sorted[k] == e;
      assert k >= n;
    }
    forall v ensures WithScore(board, v) <= WithScore(users, v) {
      WithScorePrefix(sorted, n, v);
      SortStable(users, v);
    }
  }

  /** The leaderboard is empty exactly when nobody has scored yet. */
  lemma TopEmpty(users: Dict)
    ensures Top(users) == [] <==> users == []
  {
    TopSpec(users);
  }
}
