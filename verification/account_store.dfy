/**
 The account collection: one account per user id holding an integer balance
 in minor currency units (cents). The store is a finite map keyed by the
 canonical spelling of each user's ObjectId (24 lower-case hexadecimal digits);
 a key outside its domain is a user without an account.
 */
module AccountStore {
  import opened Optional

  type UserId = string

  type Store = map<UserId, int>

  /** A hexadecimal digit in either case. */
  predicate IsHexDigit(c: char) {
    '0' <= c <= '9' || 'a' <= c <= 'f' || 'A' <= c <= 'F'
  }

  /** The lower-case spelling of a character; only 'A'..'F' change. */
  function LowerHex(c: char): (d: char)
    ensures IsHexDigit(c) ==> IsHexDigit(d) && !('A' <= d <= 'F')
    ensures !('A' <= c <= 'F') ==> d == c
  {
    if 'A' <= c <= 'F' then (c as int - 'A' as int + 'a' as int) as char else c
  }

  /**
   The cast mongoose applies to a user id before it queries or updates by
   `userId`: a string of 24 hexadecimal digits, in either case, names the
   account whose canonical key is its lower-case spelling; any other string is
   a cast error, which the query throws.
   */
  function CastObjectId(id: string): (k: Option<UserId>)
    ensures k.Some? <==> |id| == 24 && forall i :: 0 <= i < |id| ==> IsHexDigit(id[i])
    ensures k.Some? ==> |k.value| == |id| && forall i :: 0 <= i < |id| ==> k.value[i] == LowerHex(id[i])
  {
    if |id| == 24 && forall i :: 0 <= i < |id| ==> IsHexDigit(id[i])
    then Some(seq(|id|, i requires 0 <= i < |id| => LowerHex(id[i])))
    else None
  }

  /** The spelling the server itself issues: the id casts to itself. */
  predicate Canonical(id: UserId) {
    CastObjectId(id) == Some(id)
  }

  /** Casting is idempotent: every key a cast yields is canonical. */
  lemma CastYieldsCanonical(id: string)
    requires CastObjectId(id).Some?
    ensures Canonical(CastObjectId(id).value)
  {
    var k := CastObjectId(id).value;
    forall i | 0 <= i < |k|
      ensures LowerHex(k[i]) == k[i]
    {
      assert k[i] == LowerHex(id[i]);
    }
    assert CastObjectId(k).value == k;
  }

  /** Every account holds a non-negative balance. */
  ghost predicate NonNegative(s: Store) {
    forall id :: id in s ==> s[id] >= 0
  }

  /** `s` and `s'` hold the same accounts and agree on every account except those in `touched`. */
  ghost predicate SameExcept(s: Store, s': Store, touched: set<UserId>) {
    && s'.Keys == s.Keys
    && forall id :: id in s && id !in touched ==> s'[id] == s[id]
  }

  /**
   The `$inc` update of one account: a relative change of `delta` applied to the
   account of `id`. The update has no upsert, so a missing account is left missing
   and nothing else changes.
   */
  function Inc(s: Store, id: UserId, delta: int): (r: Store)
    ensures SameExcept(s, r, {id})
    ensures id in s ==> r[id] == s[id] + delta
    ensures id !in s ==> r == s
  {
    if id in s then s[id := s[id] + delta] else s
  }

  /** The sum of all balances, taken over the keys in an arbitrary order. */
  ghost function Total(s: Store): int
    decreases |s|
  {
    if s == map[] then 0
    else
      var id :| id in s;
      assert |s - {id}| < |s| by { assert (s - {id}).Keys == s.Keys - {id}; }
      s[id] + Total(s - {id})
  }

  /** The total does not depend on which account is taken out first. */
  lemma {:induction false} TotalRemove(s: Store, id: UserId)
    requires id in s
    ensures Total(s) == s[id] + Total(s - {id})
    decreases |s|
  {
    var j :| j in s && Total(s) == s[j] + Total(s - {j});
    if j != id {
      assert (s - {j}).Keys == s.Keys - {j};
      assert (s - {id}).Keys == s.Keys - {id};
      TotalRemove(s - {j}, id);
      TotalRemove(s - {id}, j);
      assert s - {j} - {id} == s - {id} - {j};
    }
  }

  /** Overwriting one present balance changes the total by exactly the difference. */
  lemma {:induction false} TotalUpdate(s: Store, id: UserId, v: int)
    requires id in s
    ensures Total(s[id := v]) == Total(s) - s[id] + v
  {
    TotalRemove(s, id);
    TotalRemove(s[id := v], id);
    assert s[id := v] - {id} == s - {id};
  }

  /** A `$inc` by `delta` on a present account changes the total by `delta`. */
  lemma {:induction false} IncTotal(s: Store, id: UserId, delta: int)
    ensures id in s ==> Total(Inc(s, id, delta)) == Total(s) + delta
    ensures id !in s ==> Total(Inc(s, id, delta)) == Total(s)
  {
    if id in s {
      TotalUpdate(s, id, s[id] + delta);
    }
  }
}
