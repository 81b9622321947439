/**
 What redaction can miss.  After passing over an authority without userinfo, the scan
 resumes at the authority's end, so a scheme that starts inside that authority is never
 looked at: `http://https://user@host` comes out unchanged.  The message is clean
 afterwards exactly when no such scheme carries userinfo.
 */
module RedactionCoverage {
  import opened Text
  import opened Redaction

  /** The scheme at `k` is followed by an authority with userinfo. */
  predicate Leak(s: string, k: nat) {
    k < |s| && SchemeLength(s, k) > 0 && TurnFor(s, k).Mask?
  }

  ghost predicate Exposed(s: string) {
    exists k :: Leak(s, k)
  }

  /** The scan examines the scheme at `k`. */
  predicate Visits(s: string, k: nat)
    decreases |s|
  {
    var t := NextTurn(s, 0);
    !t.Stop? &&
    (k == NextScheme(s, 0) || (var n := |s| - |Rest(s, t)|; k >= n && Visits(Rest(s, t), k - n)))
  }

  /** A scheme with userinfo that the scan jumps over. */
  ghost predicate Missed(s: string) {
    exists k :: Leak(s, k) && !Visits(s, k)
  }

  lemma LeakForward(p: string, s: string, k: nat)
    ensures Leak(p + s, |p| + k) == Leak(s, k)
  {
    if k < |s| {
      SchemeForward(p, s, k);
      if SchemeLength(s, k) > 0 {
        TurnForForward(p, s, k);
      }
    }
  }

  lemma LeakPast(s: string, n: nat, k: nat)
    requires n <= |s| && n <= k
    ensures Leak(s, k) == Leak(s[n..], k - n)
  {
    assert s == s[..n] + s[n..];
    LeakForward(s[..n], s[n..], k - n);
  }

  /** No scheme starts inside a scheme. */
  lemma InsideScheme(s: string, i: nat, k: nat)
    requires SchemeLength(s, i) > 0 && i < k < i + SchemeLength(s, i)
    ensures SchemeLength(s, k) == 0
  {
  }

  /** A scheme that starts inside an authority runs across its end. */
  lemma CrossesEnd(s: string, a: nat, e: nat, k: nat)
    requires IsAuthorityEnd(s, a, e) && a <= k < e && SchemeLength(s, k) > 0
    ensures e == k + SchemeLength(s, k) - 2
    ensures '@' !in s[k..e]
  {
  }

  // ---- Where leaks can be ----

  lemma NoLeakBeforeFirst(s: string, k: nat)
    requires k < NextScheme(s, 0)
    ensures SchemeLength(s, k) == 0
  {
    NextSchemeIsFirst(s, 0);
  }

  /** In what a masking turn settles, the original has one leak, the one it masks. */
  lemma OriginalHeadOfMask(s: string, a: nat, at: nat, k: nat)
    requires NextTurn(s, 0) == Mask(a, at) && k <= at && Leak(s, k)
    ensures k == NextScheme(s, 0)
  {
    var i := NextScheme(s, 0);
    if k < i {
      NoLeakBeforeFirst(s, k);
    } else if i < k < a {
      InsideScheme(s, i, k);
    } else if a <= k {
      AuthorityEndIsEnd(s, a);
      CrossesEnd(s, a, AuthorityEnd(s, a), k);
    }
  }

  /** In what a masking turn writes there is no leak. */
  lemma MaskedHeadIsClean(s: string, a: nat, at: nat, tail: string, k: nat)
    requires NextTurn(s, 0) == Mask(a, at) && k < a + 11
    ensures !Leak(s[..a] + MASK + "@" + tail, k)
  {
    hide NextScheme;
    var o := s[..a] + MASK + "@" + tail;
    var i := NextScheme(s, 0);
    assert o[..a] == s[..a];
    FirstSchemeStable(s, o);
    MaskedIsPassed(s, a, at, tail);
    if k < i {
      NoLeakBeforeFirst(o, k);
    } else if i < k < a {
      InsideScheme(o, i, k);
    } else if a <= k {
      assert o[k] == (MASK + "@")[k - a];
    }
  }

  /** In what a passing turn settles, a leak starts inside the passed authority. */
  lemma HeadOfPass(s: string, e: nat, k: nat)
    requires NextTurn(s, 0) == Pass(e) && k < e && Leak(s, k)
    ensures NextScheme(s, 0) + SchemeLength(s, NextScheme(s, 0)) <= k
    ensures k != NextScheme(s, 0)
  {
    var i := NextScheme(s, 0);
    if k < i {
      NoLeakBeforeFirst(s, k);
    } else if i < k < i + SchemeLength(s, i) {
      InsideScheme(s, i, k);
    }
  }

  // ---- Redaction leaves such a leak as it is ----

  /** Up to the first authority, redaction changes nothing. */
  function Untouched(s: string): (m: nat)
    ensures m <= |s|
  {
    var i := NextScheme(s, 0);
    if i == |s| then |s| else i + SchemeLength(s, i)
  }

  lemma RedactedAgrees(s: string)
    ensures Untouched(s) <= |Redacted(s)| && Redacted(s)[..Untouched(s)] == s[..Untouched(s)]
    ensures NextScheme(s, 0) == |s| ==> Redacted(s) == s
  {
    hide Redacted, NextScheme, SchemeLength;
    match NextTurn(s, 0)
    case Stop => UnfoldStop(s);
    case Pass(e) => UnfoldPass(s, e);
    case Mask(a, at) => UnfoldMask(s, a, at);
  }

  /** A scheme and its authority, terminator included, lie in common text: same decision. */
  lemma LeakStable(s: string, t: string, k: nat, m: nat)
    requires m <= |s| && m <= |t| && s[..m] == t[..m]
    requires k < |s| && SchemeLength(s, k) > 0 && AuthorityEnd(s, k + SchemeLength(s, k)) < m
    ensures Leak(t, k) == Leak(s, k)
  {
    hide SchemeLength, Terminator, AuthorityEnd, LastAt, NextScheme;
    var a := k + SchemeLength(s, k);
    var e := AuthorityEnd(s, a);
    AuthorityEndIsEnd(s, a);
    SchemeStable(s, t, k, m);
    assert forall j :: 0 <= j < m ==> s[j] == s[..m][j] && t[j] == t[..m][j];
    EndIsAuthorityEnd(t, a, e);
    LastAtIsLast(s, a, e);
    LastAtIsLast(t, a, e);
    assert s[a..e] == s[..m][a..e] == t[..m][a..e] == t[a..e];
  }

  lemma JoinAgrees(p: string, x: string, y: string, u: nat)
    requires u <= |x| && u <= |y| && x[..u] == y[..u]
    ensures (p + x)[..|p| + u] == (p + y)[..|p| + u]
  {
  }

  /** `o` is `s` with everything from `e` on redacted: what that leaves alone. */
  ghost predicate AgreesPast(s: string, e: nat, o: string)
    requires e <= |s|
  {
    var m := e + Untouched(s[e..]);
    && m <= |o| && o[..m] == s[..m]
    && (NextScheme(s[e..], 0) == |s[e..]| ==> o == s)
    && (|o| > e <==> |s| > e)
  }

  lemma RedactedAgreesPast(s: string, e: nat)
    requires e <= |s|
    ensures AgreesPast(s, e, s[..e] + Redacted(s[e..]))
  {
    hide Redacted, NextScheme, SchemeLength, Untouched;
    RedactedAgrees(s[e..]);
    FirstCharKept(s[e..]);
    assert s == s[..e] + s[e..];
    JoinAgrees(s[..e], Redacted(s[e..]), s[e..], Untouched(s[e..]));
  }

  /** The authority of a scheme that crosses `e` ends before redaction changes anything. */
  lemma NestedAuthorityUntouched(s: string, e: nat)
    requires e + 2 <= |s| && s[e] == '/' && s[e + 1] == '/' && NextScheme(s[e..], 0) < |s[e..]|
    ensures AuthorityEnd(s, e + 2) < e + Untouched(s[e..])
  {
    var rest := s[e..];
    var f := NextScheme(rest, 0);
    assert rest[0] == '/' && rest[1] == '/';
    assert f >= 2;
    var last := f + SchemeLength(rest, f) - 1;
    assert rest[last] == '/' && s[e + last] == '/';
    AuthorityEndIsEnd(s, e + 2);
    assert Terminator(s[e + last]);
  }

  lemma NestedSchemeKept(s: string, a: nat, e: nat, k: nat, o: string)
    requires IsAuthorityEnd(s, a, e) && AgreesPast(s, e, o)
    requires a <= k < e && SchemeLength(s, k) > 0
    ensures Leak(o, k) == Leak(s, k)
  {
    CrossesEnd(s, a, e, k);
    if NextScheme(s[e..], 0) < |s[e..]| {
      NestedAuthorityUntouched(s, e);
      LeakStable(s, o, k, e + Untouched(s[e..]));
    }
  }

  /** Redaction puts no new scheme into a passed authority. */
  lemma NestedSchemeNotNew(s: string, a: nat, e: nat, k: nat, o: string)
    requires e <= |s| && IsAuthorityEnd(o, a, e) && AgreesPast(s, e, o)
    requires a <= k < e && SchemeLength(o, k) > 0
    ensures SchemeLength(s, k) > 0
  {
  }

  lemma PassEnds(s: string, e: nat)
    requires NextTurn(s, 0) == Pass(e)
    ensures IsAuthorityEnd(s, NextScheme(s, 0) + SchemeLength(s, NextScheme(s, 0)), e)
  {
    AuthorityEndIsEnd(s, NextScheme(s, 0) + SchemeLength(s, NextScheme(s, 0)));
  }

  /** A leak inside a passed authority is there after redaction exactly when it was before. */
  lemma NestedLeakKept(s: string, e: nat, k: nat)
    requires NextTurn(s, 0) == Pass(e)
    requires NextScheme(s, 0) + SchemeLength(s, NextScheme(s, 0)) <= k < e
    ensures Leak(s[..e] + Redacted(s[e..]), k) == Leak(s, k)
  {
    var o := s[..e] + Redacted(s[e..]);
    var a := NextScheme(s, 0) + SchemeLength(s, NextScheme(s, 0));
    RedactedAgreesPast(s, e);
    if SchemeLength(s, k) > 0 {
      PassEnds(s, e);
      NestedSchemeKept(s, a, e, k, o);
    } else if SchemeLength(o, k) > 0 {
      PassedAgain(s, e);
      PassKeepsScheme(s, e, Redacted(s[e..]));
      PassEnds(o, e);
      NestedSchemeNotNew(s, a, e, k, o);
    }
  }

  lemma PassKeepsScheme(s: string, e: nat, x: string)
    requires NextTurn(s, 0) == Pass(e)
    ensures NextScheme(s[..e] + x, 0) == NextScheme(s, 0)
    ensures SchemeLength(s[..e] + x, NextScheme(s, 0)) == SchemeLength(s, NextScheme(s, 0))
  {
    var a := NextScheme(s, 0) + SchemeLength(s, NextScheme(s, 0));
    assert (s[..e] + x)[..a] == s[..a];
    FirstSchemeStable(s, s[..e] + x);
  }

  // ---- The exact condition ----

  /** A leak that starts inside the authority passed over. */
  predicate Nested(s: string, e: nat, k: nat)
    requires NextTurn(s, 0) == Pass(e)
  {
    NextScheme(s, 0) + SchemeLength(s, NextScheme(s, 0)) <= k < e && Leak(s, k)
  }

  // Position by position: before and after a passing turn, before and after a masking turn.

  lemma VisitsAcrossPass(s: string, e: nat, k: nat)
    requires NextTurn(s, 0) == Pass(e)
    ensures Visits(s, k) <==> k == NextScheme(s, 0) || (k >= e && Visits(s[e..], k - e))
  {
    hide NextTurn, NextScheme, SchemeLength;
  }

  lemma VisitsAcrossMask(s: string, a: nat, at: nat, k: nat)
    requires NextTurn(s, 0) == Mask(a, at)
    ensures Visits(s, k) <==> k == NextScheme(s, 0) || (k > at && Visits(s[at + 1..], k - at - 1))
  {
    hide NextTurn, NextScheme, SchemeLength;
  }

  lemma BeforePass(s: string, e: nat, k: nat)
    requires NextTurn(s, 0) == Pass(e)
    ensures k < e ==> (Leak(s, k) && !Visits(s, k) <==> Nested(s, e, k))
    ensures k >= e ==> Leak(s, k) == Leak(s[e..], k - e) && Visits(s, k) == Visits(s[e..], k - e)
  {
    hide SchemeLength, Leak, Visits;
    VisitsAcrossPass(s, e, k);
    if k >= e {
      LeakPast(s, e, k);
    } else if Leak(s, k) {
      HeadOfPass(s, e, k);
    }
  }

  lemma AfterPass(s: string, e: nat, x: string, k: nat)
    requires NextTurn(s, 0) == Pass(e) && x == Redacted(s[e..])
    ensures k < e ==> (Leak(s[..e] + x, k) <==> Nested(s, e, k))
    ensures k >= e ==> Leak(s[..e] + x, k) == Leak(x, k - e)
  {
    if k >= e {
      LeakForward(s[..e], x, k - e);
    } else {
      PassedAgain(s, e);
      PassKeepsScheme(s, e, x);
      if Leak(s[..e] + x, k) {
        HeadOfPass(s[..e] + x, e, k);
      }
      if NextScheme(s, 0) + SchemeLength(s, NextScheme(s, 0)) <= k {
        NestedLeakKept(s, e, k);
      }
    }
  }

  lemma BeforeMaskInHead(s: string, a: nat, at: nat, k: nat)
    requires NextTurn(s, 0) == Mask(a, at) && k <= at && Leak(s, k)
    ensures Visits(s, k)
  {
    OriginalHeadOfMask(s, a, at, k);
  }

  lemma BeforeMaskInRest(s: string, a: nat, at: nat, k: nat)
    requires NextTurn(s, 0) == Mask(a, at)
    ensures Leak(s, at + 1 + k) == Leak(s[at + 1..], k)
    ensures Visits(s, at + 1 + k) == Visits(s[at + 1..], k)
  {
    hide SchemeLength, Leak, Visits;
    VisitsAcrossMask(s, a, at, at + 1 + k);
    LeakPast(s, at + 1, at + 1 + k);
  }

  lemma AfterMask(s: string, a: nat, at: nat, x: string, k: nat)
    requires NextTurn(s, 0) == Mask(a, at)
    ensures k < a + 11 ==> !Leak(s[..a] + MASK + "@" + x, k)
    ensures k >= a + 11 ==> Leak(s[..a] + MASK + "@" + x, k) == Leak(x, k - a - 11)
  {
    if k < a + 11 {
      MaskedHeadIsClean(s, a, at, x, k);
    } else {
      LeakForward(s[..a] + MASK + "@", x, k - a - 11);
    }
  }

  lemma MissedAfterPass(s: string, e: nat)
    requires NextTurn(s, 0) == Pass(e)
    ensures Missed(s) <==> Missed(s[e..]) || exists k :: Nested(s, e, k)
  {
    hide NextTurn, Leak, Visits, Redacted;
    if k: nat :| Leak(s, k) && !Visits(s, k) {
      BeforePass(s, e, k);
    }
    if k: nat :| Leak(s[e..], k) && !Visits(s[e..], k) {
      BeforePass(s, e, e + k);
      assert Leak(s, e + k) && !Visits(s, e + k);
    }
    if k: nat :| Nested(s, e, k) {
      BeforePass(s, e, k);
    }
  }

  lemma ExposedAfterPass(s: string, e: nat, x: string)
    requires NextTurn(s, 0) == Pass(e) && x == Redacted(s[e..])
    ensures Exposed(s[..e] + x) <==> Exposed(x) || exists k :: Nested(s, e, k)
  {
    hide NextTurn, Leak, Visits, Redacted;
    if k: nat :| Leak(s[..e] + x, k) {
      AfterPass(s, e, x, k);
    }
    if k: nat :| Leak(x, k) {
      AfterPass(s, e, x, e + k);
      assert Leak(s[..e] + x, e + k);
    }
    if k: nat :| Nested(s, e, k) {
      AfterPass(s, e, x, k);
    }
  }

  lemma MissedAfterMask(s: string, a: nat, at: nat, rest: string)
    requires NextTurn(s, 0) == Mask(a, at) && rest == s[at + 1..]
    ensures Missed(s) <==> Missed(rest)
  {
    hide NextTurn, Leak, Visits, Redacted;
    if k: nat :| Leak(s, k) && !Visits(s, k) {
      if k <= at {
        BeforeMaskInHead(s, a, at, k);
      } else {
        BeforeMaskInRest(s, a, at, k - at - 1);
      }
    }
    if k: nat :| Leak(rest, k) && !Visits(rest, k) {
      BeforeMaskInRest(s, a, at, k);
    }
  }

  lemma ExposedAfterMask(s: string, a: nat, at: nat, x: string)
    requires NextTurn(s, 0) == Mask(a, at)
    ensures Exposed(s[..a] + MASK + "@" + x) <==> Exposed(x)
  {
    hide NextTurn, Leak, Visits, Redacted;
    var o := s[..a] + MASK + "@" + x;
    if k: nat :| Leak(o, k) {
      AfterMask(s, a, at, x, k);
    }
    if k: nat :| Leak(x, k) {
      AfterMask(s, a, at, x, a + 11 + k);
      assert Leak(o, a + 11 + k);
    }
  }

  lemma StopIsClean(s: string)
    requires NextTurn(s, 0) == Stop
    ensures !Exposed(s)
  {
    if k: nat :| Leak(s, k) {
      NoLeakBeforeFirst(s, k);
    }
  }

  /** A redacted message still shows userinfo exactly when the scan jumped over a scheme that had some. */
  lemma {:induction false} ExposedIffMissed(s: string)
    ensures Exposed(Redacted(s)) <==> Missed(s)
    decreases |s|
  {
    match NextTurn(s, 0)
    case Stop =>
      StopIsClean(s);
    case Pass(e) =>
      ExposedIffMissed(s[e..]);
      UnfoldPass(s, e);
      ExposedAfterPass(s, e, Redacted(s[e..]));
      MissedAfterPass(s, e);
    case Mask(a, at) =>
      ExposedIffMissed(s[at + 1..]);
      UnfoldMask(s, a, at);
      ExposedAfterMask(s, a, at, Redacted(s[at + 1..]));
      MissedAfterMask(s, a, at, s[at + 1..]);
  }

  const NESTED_URL := "http://https://u@x"

  lemma NestedUrlIsPassed()
    ensures NextScheme(NESTED_URL, 0) == 0 && NextTurn(NESTED_URL, 0) == Pass(13)
  {
    var s := NESTED_URL;
    assert SchemeLength(s, 0) == 7;
    hide SchemeLength, NextScheme;
    FirstSchemeIsNext(s, 0, 0);
    assert s[7..13] == "https:";
    assert forall k :: 7 <= k < 13 ==> !Terminator(s[k]);
    PassIs(s, 13);
  }

  lemma NestedUrlLeaks()
    ensures Leak(NESTED_URL, 7)
  {
  }

  /** A message whose credentials survive redaction. */
  lemma NestedUrlStaysExposed()
    ensures Missed(NESTED_URL) && Exposed(Redacted(NESTED_URL))
  {
    NestedUrlIsPassed();
    NestedUrlLeaks();
    VisitsAcrossPass(NESTED_URL, 13, 7);
    ExposedIffMissed(NESTED_URL);
  }
}
