/**
  The matching and scoring engine behind the group-message handler: which
  slogan a message earns points for, and how those points are credited.
*/
module Matching {
  import opened Wrappers
  import opened OrderedDict

  /** `p` stands in `t` starting at position `i`. */
  ghost predicate OccursAt(p: string, t: string, i: int) {
    0 <= i && i + |p| <= |t| && t[i..i + |p|] == p
  }

  /** Python's `p in t` on strings: a case-sensitive substring test (the empty string is in every text). */
  function Occurs(p: string, t: string): (r: bool)
    ensures r <==> exists i :: OccursAt(p, t, i)
    decreases |t|
  {
    if |p| > |t| then
      assert forall i :: !OccursAt(p, t, i);
      false
    else if t[..|p|] == p then
      assert OccursAt(p, t, 0);
      true
    else
      var r := Occurs(p, t[1..]);
      assert r ==> exists i :: OccursAt(p, t, i) by {
        if r {
          var i :| OccursAt(p, t[1..], i);
          assert t[1..][i..i + |p|] == t[i + 1..i + 1 + |p|];
          assert OccursAt(p, t, i + 1);
        }
      }
      assert (exists i :: OccursAt(p, t, i)) ==> r by {
        if exists i :: OccursAt(p, t, i) {
          var i :| OccursAt(p, t, i);
          assert i != 0;
          assert t[1..][i - 1..i - 1 + |p|] == t[i..i + |p|];
          assert OccursAt(p, t[1..], i - 1);
        }
      }
      r
  }

  /** Entry `i` is a slogan of the message and no earlier entry is. */
  ghost predicate IsFirstMatch(slogans: Dict, text: string, i: int) {
    && 0 <= i < |slogans|
    && Occurs(slogans[i].0, text)
    && forall j :: 0 <= j < i ==> !Occurs(slogans[j].0, text)
  }

  /**
    The slogan a message earns points for: the first entry of the table, in
    its iteration order, whose text occurs in the message; nothing when no
    slogan occurs in it.
  */
  function FirstMatch(slogans: Dict, text: string): (r: Option<Entry>)
    ensures r.None? <==> forall j :: 0 <= j < |slogans| ==> !Occurs(slogans[j].0, text)
    ensures r.Some? ==> exists i :: IsFirstMatch(slogans, text, i) && slogans[i] == r.value
  {
    if slogans == [] then None
    else if Occurs(slogans[0].0, text) then
      assert IsFirstMatch(slogans, text, 0);
      Some(slogans[0])
    else
      assert forall j :: 0 < j < |slogans| ==> slogans[1..][j - 1] == slogans[j];
      FirstMatchShift(slogans, text);
      FirstMatch(slogans[1..], text)
  }

  /** Past a first entry that does not match, first matches of the rest are first matches of the whole. */
  lemma FirstMatchShift(slogans: Dict, text: string)
    requires |slogans| > 0 && !Occurs(slogans[0].0, text)
    ensures forall i :: IsFirstMatch(slogans[1..], text, i) ==> IsFirstMatch(slogans, text, i + 1)
  {
    forall i | IsFirstMatch(slogans[1..], text, i) ensures IsFirstMatch(slogans, text, i + 1) {
      assert forall j :: 0 < j <= i + 1 ==> slogans[1..][j - 1] == slogans[j];
    }
  }

  /** One step of the scan: entry `i` either matches or hands over to the entries after it. */
  lemma FirstMatchStep(slogans: Dict, text: string, i: int)
    requires 0 <= i < |slogans|
    ensures FirstMatch(slogans[i..], text) ==
              if Occurs(slogans[i].0, text) then Some(slogans[i]) else FirstMatch(slogans[i + 1..], text)
  {
    assert slogans[i..][1..] == slogans[i + 1..];
  }

  /** There is only one first match, so a message scores at most once. */
  lemma FirstMatchUnique(slogans: Dict, text: string, i: int, j: int)
    requires IsFirstMatch(slogans, text, i) && IsFirstMatch(slogans, text, j)
    ensures i == j
  {
  }

  /**
    `users[uid] = users.get(uid, 0) + score`: the user's total, 0 when absent,
    grows by `score`, and nobody else's changes.
  */
  function Credit(users: Dict, uid: string, score: int): (r: Dict)
    requires Distinct(users)
    ensures Distinct(r)
    ensures Get(r, uid) == Some(GetDefault(users, uid, 0) + score)
    ensures forall other :: other != uid ==> Get(r, other) == Get(users, other)
  {
    PutDistinct(users, uid, GetDefault(users, uid, 0) + score);
    Put(users, uid, GetDefault(users, uid, 0) + score)
  }

  /**
    The score table after the message `text` from user `uid`: the user is
    credited with the score of the first matching slogan, if there is one.
  */
  function Score(users: Dict, slogans: Dict, uid: string, text: string): (r: Dict)
    requires Distinct(users)
    ensures Distinct(r)
  {
    match FirstMatch(slogans, text)
    case None => users
    case Some(e) => Credit(users, uid, e.1)
  }

  /**
    What one message does to the score table. With no slogan in the message
    nothing changes; otherwise the sender's total (0 when absent) grows by
    the score of the first matching slogan, and every other user keeps theirs.
  */
  lemma ScoreEffect(users: Dict, slogans: Dict, uid: string, text: string)
    requires Distinct(users)
    ensures FirstMatch(slogans, text).None? ==> Score(users, slogans, uid, text) == users
    ensures FirstMatch(slogans, text).Some? ==>
              Get(Score(users, slogans, uid, text), uid) ==
                Some(GetDefault(users, uid, 0) + FirstMatch(slogans, text).value.1)
    ensures forall other :: other != uid ==> Get(Score(users, slogans, uid, text), other) == Get(users, other)
  {
  }

  /** Credits add up: awarding `a` and then `b` leaves the user `a + b` above where they started. */
  lemma CreditAdditive(users: Dict, uid: string, a: int, b: int)
    requires Distinct(users)
    ensures GetDefault(Credit(Credit(users, uid, a), uid, b), uid, 0) == GetDefault(users, uid, 0) + a + b
  {
  }
}
