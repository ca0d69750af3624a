/**
 Order identifiers: the parent decision id, and the broker client-order-id
 `<parent id>:<attempt>` of each submission.
 */
module ChildIds {

  /** Unit separator between the fields of a decision id; it occurs in no account, symbol, day or side. */
  const FIELD_SEP: char := '\U{1F}'

  // ---------------------------------------------------------------------------
  // Decimal attempt numbers
  // ---------------------------------------------------------------------------

  predicate IsDigit(c: char) {
    '0' <= c <= '9'
  }

  predicate IsDigits(s: string) {
    s != "" && forall i :: 0 <= i < |s| ==> IsDigit(s[i])
  }

  function Digits(n: nat): (s: string)
    ensures IsDigits(s)
  {
    if n < 10 then [(n + 48) as char] else Digits(n / 10) + [(n % 10 + 48) as char]
  }

  function Value(s: string): (n: nat)
    requires forall i :: 0 <= i < |s| ==> IsDigit(s[i])
  {
    if s == "" then 0 else
      assert IsDigit(s[|s|-1]);
      10 * Value(s[..|s|-1]) + (s[|s|-1] as int - 48)
  }

  lemma {:induction false} ValueOfDigits(n: nat)
    ensures Value(Digits(n)) == n
  {
    if n >= 10 {
      ValueOfDigits(n / 10);
      assert Digits(n)[..|Digits(n)|-1] == Digits(n / 10);
    } else {
      assert Digits(n)[..0] == "";
    }
  }

  // ---------------------------------------------------------------------------
  // The child-id codec
  // ---------------------------------------------------------------------------

  function ChildOrderId(parentId: string, attempt: nat): string {
    parentId + ":" + Digits(attempt)
  }

  /** Index of the last ':' (as `str.rpartition` finds it), or -1. */
  function LastColon(s: string): (k: int)
    ensures -1 <= k < |s|
    ensures k >= 0 ==> s[k] == ':'
    ensures forall i :: k < i < |s| ==> s[i] != ':'
  {
    if s == "" then -1
    else if s[|s|-1] == ':' then |s| - 1
    else LastColon(s[..|s|-1])
  }

  /** Inverse of ChildOrderId; any id of another shape comes back verbatim. */
  function ParentOf(childId: string): string {
    var k := LastColon(childId);
    if k > 0 && IsDigits(childId[k+1..]) then childId[..k] else childId
  }

  lemma LastColonUnique(s: string, k: nat)
    requires k < |s| && s[k] == ':' && forall i :: k < i < |s| ==> s[i] != ':'
    ensures LastColon(s) == k
  {
  }

  /** The exact decoding rule: a different id comes back only for `<p>:<digits>` with p non-empty, and then it is p. */
  lemma DecodesExactly(childId: string, p: string)
    ensures (ParentOf(childId) == p && p != childId)
       <==> (p != "" && exists t :: IsDigits(t) && childId == p + ":" + t)
  {
    if p != "" && exists t :: IsDigits(t) && childId == p + ":" + t {
      var t :| IsDigits(t) && childId == p + ":" + t;
      forall i | |p| < i < |childId|
        ensures childId[i] != ':'
      {
        assert childId[i] == t[i - |p| - 1];
      }
      LastColonUnique(childId, |p|);
      assert childId[|p|+1..] == t && childId[..|p|] == p;
    }
    if ParentOf(childId) == p && p != childId {
      var k := LastColon(childId);
      assert childId == p + ":" + childId[k+1..];
    }
  }

  /** Decoding undoes encoding for every non-empty parent id, colons included, and for no other. */
  lemma RoundTrip(p: string, n: nat)
    ensures ParentOf(ChildOrderId(p, n)) == p <==> p != ""
  {
    DecodesExactly(ChildOrderId(p, n), p);
    if p != "" {
      assert IsDigits(Digits(n)) && ChildOrderId(p, n) == p + ":" + Digits(n);
    }
  }

  /** No two (decision, attempt) pairs share a client-order-id. */
  lemma EncodingInjective(p: string, n: nat, q: string, m: nat)
    requires p != "" && q != ""
    requires ChildOrderId(p, n) == ChildOrderId(q, m)
    ensures p == q && n == m
  {
    RoundTrip(p, n);
    RoundTrip(q, m);
    assert ChildOrderId(p, n)[|p|+1..] == Digits(n);
    assert ChildOrderId(q, m)[|q|+1..] == Digits(m);
    ValueOfDigits(n);
    ValueOfDigits(m);
  }

  // ---------------------------------------------------------------------------
  // Decision ids
  // ---------------------------------------------------------------------------

  predicate SepFree(s: string) {
    FIELD_SEP !in s
  }

  /** The hashed payload of a decision id; the digest is taken to be injective and is left implicit. */
  function IntentId(account: string, symbol: string, day: string, side: string, version: string): string {
    account + [FIELD_SEP] + symbol + [FIELD_SEP] + day + [FIELD_SEP] + side + [FIELD_SEP] + version
  }

  function FirstSep(s: string): (k: nat)
    ensures k <= |s|
    ensures forall i :: 0 <= i < k ==> s[i] != FIELD_SEP
    ensures k < |s| ==> s[k] == FIELD_SEP
  {
    if s == "" || s[0] == FIELD_SEP then 0 else 1 + FirstSep(s[1..])
  }

  /** The account a decision id belongs to. */
  function AccountOf(intentId: string): string {
    intentId[..FirstSep(intentId)]
  }

  lemma FirstField(head: string, tail: string)
    requires SepFree(head)
    ensures AccountOf(head + [FIELD_SEP] + tail) == head
  {
    var s := head + [FIELD_SEP] + tail;
    var k := FirstSep(s);
    assert s[|head|] == FIELD_SEP;
    assert forall i :: 0 <= i < |head| ==> s[i] == head[i];
    assert s[..|head|] == head;
  }

  lemma IntentIdAccount(account: string, symbol: string, day: string, side: string, version: string)
    requires SepFree(account)
    ensures AccountOf(IntentId(account, symbol, day, side, version)) == account
    ensures IntentId(account, symbol, day, side, version) != ""
  {
    var tail := symbol + [FIELD_SEP] + day + [FIELD_SEP] + side + [FIELD_SEP] + version;
    assert IntentId(account, symbol, day, side, version) == account + [FIELD_SEP] + tail;
    FirstField(account, tail);
  }

  lemma FirstFieldInjective(a: string, s: string, b: string, t: string)
    requires SepFree(a) && SepFree(b)
    requires a + [FIELD_SEP] + s == b + [FIELD_SEP] + t
    ensures a == b && s == t
  {
    FirstField(a, s);
    FirstField(b, t);
    assert (a + [FIELD_SEP] + s)[|a|+1..] == s;
    assert (b + [FIELD_SEP] + t)[|b|+1..] == t;
  }

  /** Decisions that differ in any field have different ids: the separator keeps fields from running together. */
  lemma IntentIdInjective(a: string, s: string, d: string, e: string, v: string,
                          a': string, s': string, d': string, e': string, v': string)
    requires SepFree(a) && SepFree(s) && SepFree(d) && SepFree(e)
    requires SepFree(a') && SepFree(s') && SepFree(d') && SepFree(e')
    requires IntentId(a, s, d, e, v) == IntentId(a', s', d', e', v')
    ensures a == a' && s == s' && d == d' && e == e' && v == v'
  {
    var t3, t3' := e + [FIELD_SEP] + v, e' + [FIELD_SEP] + v';
    var t2, t2' := d + [FIELD_SEP] + t3, d' + [FIELD_SEP] + t3';
    var t1, t1' := s + [FIELD_SEP] + t2, s' + [FIELD_SEP] + t2';
    assert IntentId(a, s, d, e, v) == a + [FIELD_SEP] + t1;
    assert IntentId(a', s', d', e', v') == a' + [FIELD_SEP] + t1';
    FirstFieldInjective(a, t1, a', t1');
    FirstFieldInjective(s, t2, s', t2');
    FirstFieldInjective(d, t3, d', t3');
    FirstFieldInjective(e, v, e', v');
  }
}
