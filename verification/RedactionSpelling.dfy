/**
 Redaction stated on the characters of a message.  A message without a scheme stays as it is; otherwise
 it is text without a scheme, a scheme, an authority, and the rest, and what becomes of it depends on
 the authority's last `@` alone.
 */
module RedactionSpelling {
  import opened Text
  import opened Redaction

  /** A spelling of `http://` or `https://`, in any mix of cases. */
  predicate Spells(x: string) {
    && (|x| == 7 || |x| == 8)
    && x[0] in {'h', 'H'} && x[1] in {'t', 'T'} && x[2] in {'t', 'T'} && x[3] in {'p', 'P'}
    && (|x| == 8 ==> x[4] in {'s', 'S'})
    && x[|x| - 3] == ':' && x[|x| - 2] == '/' && x[|x| - 1] == '/'
  }

  predicate StartsScheme(s: string, k: nat) {
    (k + 7 <= |s| && Spells(s[k..k + 7])) || (k + 8 <= |s| && Spells(s[k..k + 8]))
  }

  ghost predicate NoScheme(s: string) {
    forall k :: 0 <= k < |s| ==> !StartsScheme(s, k)
  }

  predicate EndsAuthority(c: char) {
    IsWhitespace(c) || c == '/' || c == '?' || c == '#' || c == ')' || c == ']'
  }

  /** Text that lies within one authority. */
  ghost predicate InAuthority(x: string) {
    forall i :: 0 <= i < |x| ==> !EndsAuthority(x[i])
  }

  /** What can follow an authority: nothing, or text whose first character ends it. */
  predicate Follows(rest: string) {
    |rest| > 0 ==> EndsAuthority(rest[0])
  }

  // ---- The searches of the scan, on characters ----

  lemma SchemeStartsIff(s: string, k: nat)
    requires k <= |s|
    ensures SchemeLength(s, k) > 0 <==> StartsScheme(s, k)
  {
    var n := SchemeLength(s, k);
    if k + 7 <= |s| {
      var x := s[k..k + 7];
      assert forall i :: 0 <= i < 7 ==> x[i] == s[k + i];
    }
    if k + 8 <= |s| {
      var y := s[k..k + 8];
      assert forall i :: 0 <= i < 8 ==> y[i] == s[k + i];
    }
  }

  lemma SpelledLength(pre: string, scheme: string, tail: string)
    requires Spells(scheme)
    ensures SchemeLength(pre + scheme + tail, |pre|) == |scheme|
  {
    var s := pre + scheme + tail;
    assert forall i :: 0 <= i < |scheme| ==> s[|pre| + i] == scheme[i];
  }

  /** No scheme runs from text without one into a scheme. */
  lemma NoneRunsIn(pre: string, tail: string, k: nat)
    requires k < |pre| && !StartsScheme(pre, k) && |tail| > 0 && tail[0] in {'h', 'H'}
    ensures SchemeLength(pre + tail, k) == 0
  {
    var s := pre + tail;
    var n := SchemeLength(s, k);
    assert s[|pre|] == tail[0];
    if n > 0 {
      assert k + n <= |pre|;
      assert s[..|pre|] == pre;
      SchemeStable(s, pre, k, |pre|);
      SchemeStartsIff(pre, k);
    }
  }

  lemma FirstIsSpelled(pre: string, scheme: string, tail: string)
    requires NoScheme(pre) && Spells(scheme)
    ensures NextScheme(pre + scheme + tail, 0) == |pre|
    ensures SchemeLength(pre + scheme + tail, |pre|) == |scheme|
  {
    var s := pre + scheme + tail;
    SpelledLength(pre, scheme, tail);
    assert s == pre + (scheme + tail);
    hide SchemeLength, StartsScheme;
    forall k | 0 <= k < |pre|
      ensures SchemeLength(s, k) == 0
    {
      NoneRunsIn(pre, scheme + tail, k);
    }
    FirstSchemeIsNext(s, 0, |pre|);
  }

  lemma AuthorityIs(head: string, authority: string, rest: string)
    requires InAuthority(authority) && Follows(rest)
    ensures var s := head + authority + rest;
            IsAuthorityEnd(s, |head|, |head| + |authority|) && s[|head|..|head| + |authority|] == authority
  {
    var s := head + authority + rest;
    assert forall k :: |head| <= k < |head| + |authority| ==> s[k] == authority[k - |head|];
    if |rest| > 0 {
      assert s[|head| + |authority|] == rest[0];
    }
  }

  lemma {:induction false} LastAtIs(s: string, lo: nat, hi: nat, at: nat)
    requires lo <= at < hi <= |s| && s[at] == '@' && forall k :: at < k < hi ==> s[k] != '@'
    ensures LastAt(s, lo, hi) == at
    decreases hi
  {
    if at < hi - 1 {
      LastAtIs(s, lo, hi - 1, at);
    }
  }

  lemma MaskIs(s: string, i: nat, a: nat, at: nat, e: nat)
    requires i < |s| && NextScheme(s, 0) == i && 0 < SchemeLength(s, i) == a - i
    requires IsAuthorityEnd(s, a, e) && a <= at < e && s[at] == '@' && '@' !in s[at + 1..e]
    ensures NextTurn(s, 0) == Mask(a, at)
  {
    hide SchemeLength, NextScheme, AuthorityEnd, LastAt, Terminator;
    EndIsAuthorityEnd(s, a, e);
    forall k | at < k < e
      ensures s[k] != '@'
    {
      assert s[k] == s[at + 1..e][k - at - 1];
    }
    LastAtIs(s, a, e, at);
  }

  // ---- The three kinds of message ----

  /** Without a scheme nothing changes. */
  lemma NoSchemeStays(s: string)
    requires NoScheme(s)
    ensures Redacted(s) == s
  {
    hide SchemeLength, StartsScheme, Redacted;
    forall k | 0 <= k < |s|
      ensures SchemeLength(s, k) == 0
    {
      SchemeStartsIff(s, k);
    }
    FirstSchemeIsNext(s, 0, |s|);
    UnfoldStop(s);
  }

  lemma TurnAtHost(pre: string, scheme: string, host: string, rest: string)
    requires NoScheme(pre) && Spells(scheme)
    requires InAuthority(host) && '@' !in host && Follows(rest)
    ensures NextTurn(pre + scheme + host + rest, 0) == Pass(|pre| + |scheme| + |host|)
  {
    assert |scheme| > 0;
    hide *;
    var s := pre + scheme + host + rest;
    assert s == pre + scheme + (host + rest);
    FirstIsSpelled(pre, scheme, host + rest);
    AuthorityIs(pre + scheme, host, rest);
    PassIs(s, |pre| + |scheme| + |host|);
  }

  /** An authority without an `@` stays, and the scan goes on behind it. */
  lemma HostStays(pre: string, scheme: string, host: string, rest: string)
    requires NoScheme(pre) && Spells(scheme)
    requires InAuthority(host) && '@' !in host && Follows(rest)
    ensures Redacted(pre + scheme + host + rest) == pre + scheme + host + Redacted(rest)
  {
    hide *;
    TurnAtHost(pre, scheme, host, rest);
    var p := pre + scheme + host;
    UnfoldPass(p + rest, |p|);
    assert (p + rest)[..|p|] == p && (p + rest)[|p|..] == rest;
  }

  lemma TurnAtUserinfo(pre: string, scheme: string, authority: string, rest: string, j: nat)
    requires NoScheme(pre) && Spells(scheme) && InAuthority(authority) && Follows(rest)
    requires j < |authority| && authority[j] == '@' && '@' !in authority[j + 1..]
    ensures NextTurn(pre + scheme + authority + rest, 0) == Mask(|pre| + |scheme|, |pre| + |scheme| + j)
  {
    assert |scheme| > 0;
    hide *;
    var p := pre + scheme;
    var s := p + authority + rest;
    assert s == p + (authority + rest);
    FirstIsSpelled(pre, scheme, authority + rest);
    AuthorityIs(p, authority, rest);
    assert s[|p| + j] == authority[j];
    assert s[|p| + j + 1..|p| + |authority|] == authority[j + 1..];
    MaskIs(s, |pre|, |p|, |p| + j, |p| + |authority|);
  }

  lemma AuthorityIsMasked(pre: string, scheme: string, authority: string, rest: string, j: nat)
    requires NoScheme(pre) && Spells(scheme) && InAuthority(authority) && Follows(rest)
    requires j < |authority| && authority[j] == '@' && '@' !in authority[j + 1..]
    ensures Redacted(pre + scheme + authority + rest) ==
            pre + scheme + MASK + "@" + Redacted(authority[j + 1..] + rest)
  {
    hide *;
    TurnAtUserinfo(pre, scheme, authority, rest, j);
    var p := pre + scheme;
    var s := p + authority + rest;
    UnfoldMask(s, |p|, |p| + j);
    assert s[..|p|] == p && s[|p| + j + 1..] == authority[j + 1..] + rest;
  }

  lemma MaskReads(p: string, x: string)
    ensures p + MASK + "@" + x == p + "[redacted]@" + x
  {
  }

  lemma JoinAuthority(p: string, u: string, host: string, rest: string)
    requires InAuthority(u) && InAuthority(host)
    ensures InAuthority(u + "@" + host) && (u + "@" + host)[|u|] == '@' && (u + "@" + host)[|u| + 1..] == host
    ensures p + (u + "@" + host) + rest == p + u + "@" + host + rest
  {
  }

  /**
   In an authority with an `@`, all before the last one becomes the mask, and the scan goes on with
   the host.
   */
  lemma UserinfoIsMasked(pre: string, scheme: string, u: string, host: string, rest: string)
    requires NoScheme(pre) && Spells(scheme)
    requires InAuthority(u) && InAuthority(host) && '@' !in host && Follows(rest)
    ensures Redacted(pre + scheme + u + "@" + host + rest) == pre + scheme + "[redacted]@" + Redacted(host + rest)
  {
    hide *;
    JoinAuthority(pre + scheme, u, host, rest);
    AuthorityIsMasked(pre, scheme, u + "@" + host, rest, |u|);
    MaskReads(pre + scheme, Redacted(host + rest));
  }

  // ---- Every message is of one of these kinds ----

  lemma SchemeSpelled(s: string, k: nat)
    requires SchemeLength(s, k) > 0
    ensures Spells(s[k..k + SchemeLength(s, k)])
  {
    var x := s[k..k + SchemeLength(s, k)];
    assert forall i :: 0 <= i < |x| ==> x[i] == s[k + i];
  }

  lemma StartsInPrefix(s: string, n: nat, k: nat)
    requires n <= |s| && StartsScheme(s[..n], k)
    ensures StartsScheme(s, k)
  {
    var p := s[..n];
    if k + 7 <= |p| {
      assert p[k..k + 7] == s[k..k + 7];
    }
    if k + 8 <= |p| {
      assert p[k..k + 8] == s[k..k + 8];
    }
  }

  lemma NoSchemeBefore(s: string)
    ensures NoScheme(s[..NextScheme(s, 0)])
    ensures NextScheme(s, 0) == |s| ==> NoScheme(s)
  {
    hide SchemeLength, NextScheme, StartsScheme;
    var i := NextScheme(s, 0);
    NextSchemeIsFirst(s, 0);
    assert i == |s| ==> s[..i] == s;
    forall k | 0 <= k < i
      ensures !StartsScheme(s[..i], k)
    {
      SchemeStartsIff(s, k);
      if StartsScheme(s[..i], k) {
        StartsInPrefix(s, i, k);
      }
    }
  }

  lemma AuthorityReads(s: string, a: nat, e: nat)
    requires IsAuthorityEnd(s, a, e)
    ensures InAuthority(s[a..e]) && Follows(s[e..])
  {
    assert forall i :: 0 <= i < e - a ==> s[a..e][i] == s[a + i];
    assert e < |s| ==> s[e..][0] == s[e];
  }

  lemma MessageSplits(s: string) returns (pre: string, scheme: string, authority: string, rest: string)
    requires !NoScheme(s)
    ensures s == pre + scheme + authority + rest
    ensures NoScheme(pre) && Spells(scheme) && InAuthority(authority) && Follows(rest)
  {
    hide *;
    NoSchemeBefore(s);
    var i := NextScheme(s, 0);
    SchemeSpelled(s, i);
    var a := i + SchemeLength(s, i);
    var e := AuthorityEnd(s, a);
    AuthorityEndIsEnd(s, a);
    AuthorityReads(s, a, e);
    pre, scheme, authority, rest := s[..i], s[i..a], s[a..e], s[e..];
  }
}
