/** PHP's `strtr($subject, $pairs)` with an array of replacement pairs:
    one left-to-right pass over the subject; at each position the longest
    non-empty key that starts there is replaced by its value and the scan
    resumes after that key, so replaced text is never looked at again;
    where no key starts, the character is copied. An empty key is ignored. */
module StringTranslate {

  /** Length of the longest non-empty key of `pairs` that is a prefix of `s`
      and at most `n` long, or 0 when there is none. */
  function LongestKey(s: string, pairs: map<string, string>, n: nat): (r: nat)
    requires n <= |s|
    ensures r <= n
    ensures r > 0 ==> s[..r] in pairs
    ensures forall m :: r < m <= n ==> s[..m] !in pairs
    decreases n
  {
    if n == 0 then 0
    else if s[..n] in pairs then n
    else LongestKey(s, pairs, n - 1)
  }

  function Strtr(s: string, pairs: map<string, string>): string
    decreases |s|
  {
    if s == [] then []
    else
      var n := LongestKey(s, pairs, |s|);
      if n == 0 then [s[0]] + Strtr(s[1..], pairs)
      else pairs[s[..n]] + Strtr(s[n..], pairs)
  }

  /** No key of `pairs` starts before position `cut` of `s` and ends after it. */
  predicate NoKeyAcross(s: string, cut: nat, pairs: map<string, string>)
  {
    forall p, q :: 0 <= p < cut < q <= |s| ==> s[p..q] !in pairs
  }

  /** When no key starts at the head of `s`, its first character is copied. */
  lemma NoKeyAtHead(s: string, pairs: map<string, string>)
    requires s != []
    requires forall m :: 0 < m <= |s| ==> s[..m] !in pairs
    ensures Strtr(s, pairs) == [s[0]] + Strtr(s[1..], pairs)
  {
    assert LongestKey(s, pairs, |s|) == 0;
  }

  /** A key at the head of the subject, with no longer key there, is replaced
      by its value and the scan goes on after it. */
  lemma KeyAtHead(k: string, rest: string, pairs: map<string, string>)
    requires k != [] && k in pairs
    requires forall m :: |k| < m <= |k + rest| ==> (k + rest)[..m] !in pairs
    ensures Strtr(k + rest, pairs) == pairs[k] + Strtr(rest, pairs)
  {
    var s := k + rest;
    assert s[..|k|] == k;
    var n := LongestKey(s, pairs, |s|);
    assert n == |k|;
    assert s[n..] == rest;
  }

  /** Characters that no key starts with are copied unchanged. */
  lemma {:induction false} LiteralPrefix(lit: string, rest: string, pairs: map<string, string>)
    requires forall k :: k in pairs && k != [] ==> k[0] !in lit
    ensures Strtr(lit + rest, pairs) == lit + Strtr(rest, pairs)
    decreases |lit|
  {
    if lit == [] {
      assert lit + rest == rest;
    } else {
      var s := lit + rest;
      forall m | 0 < m <= |s|
        ensures s[..m] !in pairs
      {
        assert s[..m][0] == lit[0] && lit[0] in lit;
      }
      NoKeyAtHead(s, pairs);
      assert s[1..] == lit[1..] + rest;
      forall k | k in pairs && k != []
        ensures k[0] !in lit[1..]
      {
        assert lit == [lit[0]] + lit[1..];
      }
      LiteralPrefix(lit[1..], rest, pairs);
      assert s[0] == lit[0];
      assert lit == [lit[0]] + lit[1..];
    }
  }

  /** With an empty table, `strtr` returns its subject unchanged. */
  lemma EmptyTable(s: string)
    ensures Strtr(s, map[]) == s
  {
    LiteralPrefix(s, [], map[]);
  }

  /** Where no key straddles the end of `a`, the longest key at the head of
      `a + b` is the longest key at the head of `a`. */
  lemma SameLongestKey(a: string, b: string, pairs: map<string, string>)
    requires a != []
    requires NoKeyAcross(a + b, |a|, pairs)
    ensures LongestKey(a + b, pairs, |a + b|) == LongestKey(a, pairs, |a|)
  {
    var s := a + b;
    var n := LongestKey(s, pairs, |s|);
    var n' := LongestKey(a, pairs, |a|);
    assert s[0..n] == s[..n];
    assert n <= |a|;
    assert s[..n] == a[..n] && s[..n'] == a[..n'];
  }

  /** What the pass emits for the head of `s`, and how far it advances. */
  function HeadStep(s: string, pairs: map<string, string>): (string, nat)
    requires s != []
  {
    var n := LongestKey(s, pairs, |s|);
    if n == 0 then ([s[0]], 1) else (pairs[s[..n]], n)
  }

  lemma StrtrHead(s: string, pairs: map<string, string>)
    requires s != []
    ensures HeadStep(s, pairs).1 <= |s|
    ensures Strtr(s, pairs) == HeadStep(s, pairs).0 + Strtr(s[HeadStep(s, pairs).1..], pairs)
  {
  }

  /** Where no key straddles the end of `a`, the head of `a + b` is handled
      as the head of `a` is. */
  lemma SameHead(a: string, b: string, pairs: map<string, string>)
    requires a != []
    requires NoKeyAcross(a + b, |a|, pairs)
    ensures HeadStep(a + b, pairs) == HeadStep(a, pairs)
  {
    SameLongestKey(a, b, pairs);
    var n := LongestKey(a, pairs, |a|);
    var s := a + b;
    if n == 0 {
      assert s[0] == a[0];
    } else {
      assert s[..n] == a[..n];
    }
  }

  /** After the head of `a` is consumed, no key straddles the end of what
      remains of `a`. */
  lemma ShiftNoKeyAcross(a: string, b: string, pairs: map<string, string>, k: nat)
    requires 0 < k <= |a|
    requires NoKeyAcross(a + b, |a|, pairs)
    ensures (a + b)[k..] == a[k..] + b
    ensures NoKeyAcross(a[k..] + b, |a[k..]|, pairs)
  {
    var s := a + b;
    assert s[k..] == a[k..] + b;
    forall p, q | 0 <= p < |a[k..]| < q <= |a[k..] + b|
      ensures (a[k..] + b)[p..q] !in pairs
    {
      assert (a[k..] + b)[p..q] == s[p + k..q + k];
    }
  }

  /** The pass can be cut at any position that no key straddles: the two
      halves are translated independently and the results concatenated. */
  lemma {:induction false} Split(a: string, b: string, pairs: map<string, string>)
    requires NoKeyAcross(a + b, |a|, pairs)
    ensures Strtr(a + b, pairs) == Strtr(a, pairs) + Strtr(b, pairs)
    decreases |a|
  {
    if a == [] {
      assert a + b == b;
    } else {
      SameHead(a, b, pairs);
      var (h, k) := HeadStep(a, pairs);
      StrtrHead(a, pairs);
      StrtrHead(a + b, pairs);
      ShiftNoKeyAcross(a, b, pairs, k);
      Split(a[k..], b, pairs);
      assert h + (Strtr(a[k..], pairs) + Strtr(b, pairs)) == (h + Strtr(a[k..], pairs)) + Strtr(b, pairs);
    }
  }

  /** `k` occurs in `s` starting at offset `i`. */
  predicate OccursAt(s: string, k: string, i: nat)
  {
    i + |k| <= |s| && s[i..i + |k|] == k
  }

  /** A subject in which the one key never occurs is returned unchanged. */
  lemma {:induction false} NoOccurrence(s: string, key: string, val: string)
    requires key != []
    requires forall i: nat :: !OccursAt(s, key, i)
    ensures Strtr(s, map[key := val]) == s
    decreases |s|
  {
    if s != [] {
      var pairs := map[key := val];
      forall m | 0 < m <= |s|
        ensures s[..m] !in pairs
      {
        assert !OccursAt(s, key, 0);
        if m == |key| {
          assert s[0..m] == s[..m];
        }
      }
      NoKeyAtHead(s, pairs);
      forall i: nat
        ensures !OccursAt(s[1..], key, i)
      {
        assert !OccursAt(s, key, i + 1);
        if i + |key| <= |s[1..]| {
          assert s[1..][i..i + |key|] == s[i + 1..i + 1 + |key|];
        }
      }
      NoOccurrence(s[1..], key, val);
      assert s == [s[0]] + s[1..];
    }
  }

  /** Where every occurrence in `a + rest` starts at or after the end of
      `a`, the key neither occurs in `a` nor straddles its end. */
  lemma OccursNotBefore(a: string, rest: string, key: string, val: string)
    requires key != []
    requires forall i: nat :: OccursAt(a + rest, key, i) ==> i >= |a|
    ensures forall i: nat :: !OccursAt(a, key, i)
    ensures NoKeyAcross(a + rest, |a|, map[key := val])
  {
    var s := a + rest;
    forall p, q | 0 <= p < |a| < q <= |s|
      ensures s[p..q] !in map[key := val]
    {
      assert !OccursAt(s, key, p);
    }
    forall i: nat
      ensures !OccursAt(a, key, i)
    {
      if i + |key| <= |a| {
        assert a[i..i + |key|] == s[i..i + |key|];
        assert !OccursAt(s, key, i);
      }
    }
  }

  /** Where every occurrence in `c + b` starts inside `c`, the key does not
      occur in `b`. */
  lemma OccursNotAfter(c: string, b: string, key: string)
    requires forall i: nat :: OccursAt(c + b, key, i) ==> i < |c|
    ensures forall i: nat :: !OccursAt(b, key, i)
  {
    var s := c + b;
    forall i: nat
      ensures !OccursAt(b, key, i)
    {
      if i + |key| <= |b| {
        assert b[i..i + |key|] == s[|c| + i..|c| + i + |key|];
        assert !OccursAt(s, key, |c| + i);
      }
    }
  }

  /** With one pair whose key occurs exactly once in the subject, that
      occurrence is replaced by the value and everything else is copied. */
  lemma SingleOccurrence(a: string, key: string, b: string, val: string)
    requires key != []
    requires forall i: nat :: OccursAt(a + key + b, key, i) ==> i == |a|
    ensures Strtr(a + key + b, map[key := val]) == a + val + b
  {
    var pairs := map[key := val];
    assert a + key + b == a + (key + b);
    OccursNotBefore(a, key + b, key, val);
    OccursNotAfter(a + key, b, key);
    Split(a, key + b, pairs);
    NoOccurrence(a, key, val);
    forall m | |key| < m <= |key + b|
      ensures (key + b)[..m] !in pairs
    {
      assert |(key + b)[..m]| != |key|;
    }
    KeyAtHead(key, b, pairs);
    NoOccurrence(b, key, val);
    assert a + (val + b) == a + val + b;
  }
}
