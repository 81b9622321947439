/**
 Hiding URL credentials in messages: `redact_url_credentials` edits the message in place,
 from left to right, replacing the userinfo of every http(s) authority it meets.
 */
module Redaction {
  import opened Text

  const MASK := "[redacted]"

  function Lower(c: char): char {
    if 'A' <= c <= 'Z' then (c as int + 32) as char else c
  }

  predicate HttpAt(s: string, i: nat) {
    i + 4 <= |s| && Lower(s[i]) == 'h' && Lower(s[i + 1]) == 't' && Lower(s[i + 2]) == 't' && Lower(s[i + 3]) == 'p'
  }

  predicate SlashesAt(s: string, i: nat) {
    i + 3 <= |s| && s[i] == ':' && s[i + 1] == '/' && s[i + 2] == '/'
  }

  /** Length of the scheme (`https://` or `http://`, ignoring ASCII case) at `i`, or 0. */
  function SchemeLength(s: string, i: nat): (n: nat)
    ensures n == 0 || (n <= 8 && i + n <= |s|)
  {
    if !HttpAt(s, i) then 0
    else if SlashesAt(s, i + 5) && Lower(s[i + 4]) == 's' then 8
    else if SlashesAt(s, i + 4) then 7
    else 0
  }

  /** Where an authority ends: whitespace or one of `/ ? # ) ]`. */
  predicate Terminator(c: char) {
    IsWhitespace(c) || c in {'/', '?', '#', ')', ']'}
  }

  /** First scheme at or after `i`; `|s|` if there is none. */
  function NextScheme(s: string, i: nat): (r: nat)
    requires i <= |s|
    ensures i <= r <= |s|
    ensures r < |s| ==> SchemeLength(s, r) > 0
    decreases |s| - i
  {
    if i == |s| || SchemeLength(s, i) > 0 then i else NextScheme(s, i + 1)
  }

  /** First terminator at or after `i`; `|s|` if there is none. */
  function AuthorityEnd(s: string, i: nat): (r: nat)
    requires i <= |s|
    ensures i <= r <= |s|
    decreases |s| - i
  {
    if i == |s| || Terminator(s[i]) then i else AuthorityEnd(s, i + 1)
  }

  /** Last `@` in `s[lo..hi]`; `hi` if there is none. */
  function LastAt(s: string, lo: nat, hi: nat): (r: nat)
    requires lo <= hi <= |s|
    ensures lo <= r <= hi
    ensures r < hi ==> s[r] == '@'
  {
    if lo == hi then hi
    else if s[hi - 1] == '@' then hi - 1
    else var r := LastAt(s, lo, hi - 1); if r == hi - 1 then hi else r
  }

  /** What the scan does next: stop, pass over an authority up to `end`, or mask `s[start..at]`. */
  datatype Turn = Stop | Pass(end: nat) | Mask(start: nat, at: nat)

  /** The decision for the authority of the scheme at `i`. */
  function TurnFor(s: string, i: nat): (t: Turn)
    requires i < |s| && SchemeLength(s, i) > 0
    ensures t.Pass? ==> i < t.end <= |s|
    ensures t.Mask? ==> i < t.start <= t.at < |s| && s[t.at] == '@'
  {
    var a := i + SchemeLength(s, i);
    var e := AuthorityEnd(s, a);
    var at := LastAt(s, a, e);
    if at == e then Pass(e) else Mask(a, at)
  }

  function NextTurn(s: string, from: nat): (t: Turn)
    requires from <= |s|
    ensures Fits(s, t)
    ensures t.Pass? ==> from < t.end
    ensures t.Mask? ==> from < t.start
  {
    var i := NextScheme(s, from);
    if i == |s| then Stop else TurnFor(s, i)
  }

  predicate Fits(s: string, t: Turn) {
    && (t.Pass? ==> 0 < t.end <= |s|)
    && (t.Mask? ==> 0 < t.start <= t.at < |s| && s[t.at] == '@')
  }

  /** What is left to scan after a turn. */
  function Rest(s: string, t: Turn): string
    requires Fits(s, t) && !t.Stop?
  {
    if t.Pass? then s[t.end..] else s[t.at + 1..]
  }

  /** The part a turn settles. */
  function Head(s: string, t: Turn): string
    requires Fits(s, t) && !t.Stop?
  {
    if t.Pass? then s[..t.end] else s[..t.start] + MASK + "@"
  }

  /** The left-to-right scan as a recursion on what is left of the message. */
  function Redacted(s: string): string
    decreases |s|
  {
    var t := NextTurn(s, 0);
    if t.Stop? then s else Head(s, t) + Redacted(Rest(s, t))
  }

  // ---- The scan looks only forward ----

  lemma SchemeForward(p: string, s: string, k: nat)
    requires k <= |s|
    ensures SchemeLength(p + s, |p| + k) == SchemeLength(s, k)
  {
  }

  lemma {:induction false} NextSchemeForward(p: string, s: string, k: nat)
    requires k <= |s|
    ensures NextScheme(p + s, |p| + k) == |p| + NextScheme(s, k)
    decreases |s| - k
  {
    SchemeForward(p, s, k);
    if k < |s| && SchemeLength(s, k) == 0 {
      NextSchemeForward(p, s, k + 1);
    }
  }

  lemma {:induction false} AuthorityEndForward(p: string, s: string, k: nat)
    requires k <= |s|
    ensures AuthorityEnd(p + s, |p| + k) == |p| + AuthorityEnd(s, k)
    decreases |s| - k
  {
    if k < |s| && !Terminator(s[k]) {
      AuthorityEndForward(p, s, k + 1);
    }
  }

  lemma {:induction false} LastAtForward(p: string, s: string, lo: nat, hi: nat)
    requires lo <= hi <= |s|
    ensures LastAt(p + s, |p| + lo, |p| + hi) == |p| + LastAt(s, lo, hi)
    decreases hi - lo
  {
    if lo < hi && s[hi - 1] != '@' {
      LastAtForward(p, s, lo, hi - 1);
    }
  }

  function Shifted(t: Turn, n: nat): Turn {
    match t
    case Stop => Stop
    case Pass(e) => Pass(n + e)
    case Mask(a, at) => Mask(n + a, n + at)
  }

  lemma TurnForForward(p: string, s: string, i: nat)
    requires i < |s| && SchemeLength(s, i) > 0
    ensures SchemeLength(p + s, |p| + i) > 0
    ensures TurnFor(p + s, |p| + i) == Shifted(TurnFor(s, i), |p|)
  {
    SchemeForward(p, s, i);
    var a := i + SchemeLength(s, i);
    AuthorityEndForward(p, s, a);
    LastAtForward(p, s, a, AuthorityEnd(s, a));
  }

  lemma TurnForward(p: string, s: string)
    ensures NextTurn(p + s, |p|) == Shifted(NextTurn(s, 0), |p|)
  {
    hide SchemeLength, NextScheme, TurnFor;
    NextSchemeForward(p, s, 0);
    if NextScheme(s, 0) < |s| {
      TurnForForward(p, s, NextScheme(s, 0));
    }
  }

  // ---- The in-place loop ----

  lemma Associative(p: string, q: string, r: string)
    ensures p + (q + r) == p + q + r
  {
  }

  lemma CutLater(done: string, rest: string, k: nat)
    requires k <= |rest|
    ensures (done + rest)[..|done| + k] == done + rest[..k]
    ensures (done + rest)[|done| + k..] == rest[k..]
  {
  }

  lemma AppendLater(p: string, q: string, r: string, s: string)
    ensures p + q + r + s == p + (q + r + s)
  {
  }

  lemma TurnLater(done: string, rest: string, t: Turn)
    requires Fits(rest, t) && !t.Stop?
    ensures Fits(done + rest, Shifted(t, |done|))
    ensures Head(done + rest, Shifted(t, |done|)) == done + Head(rest, t)
    ensures Rest(done + rest, Shifted(t, |done|)) == Rest(rest, t)
  {
    if t.Pass? {
      CutLater(done, rest, t.end);
    } else {
      CutLater(done, rest, t.start);
      CutLater(done, rest, t.at + 1);
      CutLater(done, rest, t.at);
      AppendLater(done, rest[..t.start], MASK, "@");
    }
  }

  /** The recursion on `rest`, in positions of `done + rest`. */
  lemma ScanTurn(done: string, rest: string)
    ensures var t := NextTurn(done + rest, |done|);
            done + Redacted(rest) ==
            if t.Stop? then done + rest else Head(done + rest, t) + Redacted(Rest(done + rest, t))
  {
    TurnForward(done, rest);
    var t := NextTurn(rest, 0);
    if !t.Stop? {
      TurnLater(done, rest, t);
      Associative(done, Head(rest, t), Redacted(Rest(rest, t)));
    }
  }

  lemma Replaced(w: string, t: Turn)
    requires t.Mask? && Fits(w, t)
    ensures var r := w[..t.start] + MASK + w[t.at..];
            var from := t.start + |MASK| + 1;
            from <= |r| && r[..from] == Head(w, t) && r[from..] == Rest(w, t)
  {
  }

  lemma NothingToRedact(s: string)
    requires |s| == 0
    ensures Redacted(s) == s
  {
  }

  /** `redact_url_credentials`.  The string may grow, but what is left to scan shrinks. */
  method RedactUrlCredentials(message: string) returns (redacted: string)
    ensures redacted == Redacted(message)
  {
    hide Redacted, NextTurn;
    redacted := message;
    var from: nat := 0;
    assert message[..0] == [] && message[0..] == message;
    while from < |redacted|
      invariant from <= |redacted|
      invariant redacted[..from] + Redacted(redacted[from..]) == Redacted(message)
      decreases |redacted| - from
    {
      assert redacted[..from] + redacted[from..] == redacted;
      ScanTurn(redacted[..from], redacted[from..]);
      var t := NextTurn(redacted, from);
      if t.Stop? {
        return;
      } else if t.Pass? {
        from := t.end;
      } else {
        Replaced(redacted, t);
        redacted := redacted[..t.start] + MASK + redacted[t.at..];
        from := t.start + |MASK| + 1;
      }
    }
    NothingToRedact(redacted[from..]);
  }

  // ---- What the searches find ----

  lemma {:induction false} NextSchemeIsFirst(s: string, i: nat)
    requires i <= |s|
    ensures forall k :: i <= k < NextScheme(s, i) ==> SchemeLength(s, k) == 0
    decreases |s| - i
  {
    if i < |s| && SchemeLength(s, i) == 0 {
      NextSchemeIsFirst(s, i + 1);
    }
  }

  lemma {:induction false} FirstSchemeIsNext(s: string, i: nat, r: nat)
    requires i <= r <= |s| && (r < |s| ==> SchemeLength(s, r) > 0)
    requires forall k :: i <= k < r ==> SchemeLength(s, k) == 0
    ensures NextScheme(s, i) == r
    decreases r - i
  {
    if i < r {
      FirstSchemeIsNext(s, i + 1, r);
    }
  }

  ghost predicate IsAuthorityEnd(s: string, a: nat, e: nat) {
    a <= e <= |s| && (forall k :: a <= k < e ==> !Terminator(s[k])) && (e < |s| ==> Terminator(s[e]))
  }

  lemma {:induction false} AuthorityEndIsEnd(s: string, a: nat)
    requires a <= |s|
    ensures IsAuthorityEnd(s, a, AuthorityEnd(s, a))
    decreases |s| - a
  {
    if a < |s| && !Terminator(s[a]) {
      AuthorityEndIsEnd(s, a + 1);
    }
  }

  lemma {:induction false} EndIsAuthorityEnd(s: string, a: nat, e: nat)
    requires IsAuthorityEnd(s, a, e)
    ensures AuthorityEnd(s, a) == e
    decreases e - a
  {
    if a < e {
      EndIsAuthorityEnd(s, a + 1, e);
    }
  }

  lemma {:induction false} LastAtIsLast(s: string, lo: nat, hi: nat)
    requires lo <= hi <= |s|
    ensures var r := LastAt(s, lo, hi);
            if r == hi then '@' !in s[lo..hi] else '@' in s[lo..hi] && '@' !in s[r + 1..hi]
    decreases hi - lo
  {
    if lo < hi {
      assert s[lo..hi] == s[lo..hi - 1] + [s[hi - 1]];
      if s[hi - 1] != '@' {
        LastAtIsLast(s, lo, hi - 1);
        var r := LastAt(s, lo, hi - 1);
        if r < hi - 1 {
          assert s[r + 1..hi] == s[r + 1..hi - 1] + [s[hi - 1]];
        }
      }
    }
  }

  /** Text that agrees up to and including a scheme has the scheme in the same place. */
  lemma SchemeStable(s: string, t: string, k: nat, m: nat)
    requires m <= |s| && m <= |t| && s[..m] == t[..m]
    requires k + 8 <= m || (SchemeLength(s, k) > 0 && k + SchemeLength(s, k) <= m)
    ensures SchemeLength(t, k) == SchemeLength(s, k)
  {
  }

  lemma FirstSchemeStable(s: string, t: string)
    requires NextScheme(s, 0) < |s|
    requires var i := NextScheme(s, 0);
             var a := i + SchemeLength(s, i);
             a <= |t| && s[..a] == t[..a]
    ensures NextScheme(t, 0) == NextScheme(s, 0)
    ensures SchemeLength(t, NextScheme(s, 0)) == SchemeLength(s, NextScheme(s, 0))
  {
    var i := NextScheme(s, 0);
    var a := i + SchemeLength(s, i);
    NextSchemeIsFirst(s, 0);
    SchemeStable(s, t, i, a);
    forall k | 0 <= k < i
      ensures SchemeLength(t, k) == 0
    {
      SchemeStable(s, t, k, a);
    }
    FirstSchemeIsNext(t, 0, i);
  }

  lemma FirstCharKept(s: string)
    ensures |Redacted(s)| > 0 <==> |s| > 0
    ensures |s| > 0 ==> Redacted(s)[0] == s[0]
  {
  }

  /** Text in which no scheme starts is passed through. */
  lemma PlainPrefix(p: string, s: string)
    requires forall k :: 0 <= k < |p| ==> SchemeLength(p + s, k) == 0
    ensures Redacted(p + s) == p + Redacted(s)
  {
    hide Redacted, SchemeLength, TurnFor, NextScheme, Head, Rest;
    NextSchemeForward(p, s, 0);
    NextSchemeIsFirst(s, 0);
    forall k | |p| <= k < |p| + NextScheme(s, 0)
      ensures SchemeLength(p + s, k) == 0
    {
      SchemeForward(p, s, k - |p|);
    }
    FirstSchemeIsNext(p + s, 0, |p| + NextScheme(s, 0));
    assert NextTurn(p + s, 0) == NextTurn(p + s, |p|);
    UnfoldTurn(p + s);
    hide NextTurn;
    ScanTurn(p, s);
  }

  // ---- Idempotence ----

  lemma PassIs(s: string, e: nat)
    requires NextScheme(s, 0) < |s|
    requires var a := NextScheme(s, 0) + SchemeLength(s, NextScheme(s, 0));
             IsAuthorityEnd(s, a, e) && '@' !in s[a..e]
    ensures NextTurn(s, 0) == Pass(e)
  {
    hide SchemeLength, NextScheme, AuthorityEnd, LastAt, Terminator, IsAuthorityEnd;
    var a := NextScheme(s, 0) + SchemeLength(s, NextScheme(s, 0));
    EndIsAuthorityEnd(s, a, e);
    LastAtIsLast(s, a, e);
  }

  /** A passed authority is passed again when what follows it is redacted. */
  lemma PassedAgain(s: string, e: nat)
    requires NextTurn(s, 0) == Pass(e)
    ensures NextTurn(s[..e] + Redacted(s[e..]), 0) == Pass(e)
  {
    hide Redacted, Terminator, SchemeLength;
    var o := s[..e] + Redacted(s[e..]);
    var i := NextScheme(s, 0);
    var a := i + SchemeLength(s, i);
    AuthorityEndIsEnd(s, a);
    LastAtIsLast(s, a, e);
    assert o[..e] == s[..e];
    assert o[..a] == s[..e][..a] == s[..a];
    FirstSchemeStable(s, o);
    FirstCharKept(s[e..]);
    assert forall k :: a <= k < e ==> o[k] == s[k];
    assert o[a..e] == s[a..e];
    PassIs(o, e);
  }

  lemma MaskEndsAuthority(p: string, tail: string)
    ensures var o := p + MASK + "@" + tail;
            |p| + 9 <= |o| && o[..|p|] == p && IsAuthorityEnd(o, |p|, |p| + 9) && '@' !in o[|p|..|p| + 9]
  {
    var o, a := p + MASK + "@" + tail, |p|;
    assert o[a..a + 9] == "[redacted";
    assert forall k :: 0 <= k < 9 ==> o[a + k] == MASK[k] && !Terminator(MASK[k]);
    assert o[a + 9] == ']';
  }

  /** A masked authority is passed: the mask's own bracket ends it before the `@`. */
  lemma MaskedIsPassed(s: string, a: nat, at: nat, tail: string)
    requires NextTurn(s, 0) == Mask(a, at)
    ensures NextTurn(s[..a] + MASK + "@" + tail, 0) == Pass(a + 9)
  {
    var o := s[..a] + MASK + "@" + tail;
    assert NextScheme(s, 0) < |s| && a == NextScheme(s, 0) + SchemeLength(s, NextScheme(s, 0));
    hide SchemeLength, NextScheme, AuthorityEnd, LastAt, IsAuthorityEnd, Terminator, NextTurn;
    MaskEndsAuthority(s[..a], tail);
    FirstSchemeStable(s, o);
    PassIs(o, a + 9);
  }

  lemma BracketAtIsPlain(s: string)
    ensures Redacted("]@" + s) == "]@" + Redacted(s)
  {
    var p := "]@";
    assert (p + s)[0] == ']' && (p + s)[1] == '@';
    assert forall k :: 0 <= k < |p| ==> SchemeLength(p + s, k) == 0;
    PlainPrefix(p, s);
  }

  lemma MaskSplits(p: string, tail: string)
    ensures var o := p + MASK + "@" + tail;
            o[|p| + 9..] == "]@" + tail && o == o[..|p| + 9] + o[|p| + 9..]
  {
  }

  lemma IdempotentAfterPass(s: string, e: nat)
    requires NextTurn(s, 0) == Pass(e) && Redacted(Redacted(s[e..])) == Redacted(s[e..])
    ensures Redacted(Redacted(s)) == Redacted(s)
  {
    var o := s[..e] + Redacted(s[e..]);
    PassedAgain(s, e);
    assert o[..e] == s[..e] && o[e..] == Redacted(s[e..]);
  }

  lemma IdempotentAfterMask(s: string, a: nat, at: nat)
    requires NextTurn(s, 0) == Mask(a, at) && Redacted(Redacted(s[at + 1..])) == Redacted(s[at + 1..])
    ensures Redacted(Redacted(s)) == Redacted(s)
  {
    var tail := Redacted(s[at + 1..]);
    var o := s[..a] + MASK + "@" + tail;
    MaskedIsPassed(s, a, at, tail);
    UnfoldPass(o, a + 9);
    MaskSplits(s[..a], tail);
    BracketAtIsPlain(tail);
    UnfoldMask(s, a, at);
  }

  lemma UnfoldTurn(s: string)
    ensures var t := NextTurn(s, 0);
            Redacted(s) == if t.Stop? then s else Head(s, t) + Redacted(Rest(s, t))
  {
    hide NextTurn, Head, Rest;
  }

  lemma UnfoldStop(s: string)
    requires NextTurn(s, 0) == Stop
    ensures Redacted(s) == s
  {
    hide NextTurn, Redacted;
    UnfoldTurn(s);
  }

  lemma UnfoldPass(s: string, e: nat)
    requires NextTurn(s, 0) == Pass(e)
    ensures Redacted(s) == s[..e] + Redacted(s[e..])
  {
    hide NextTurn, Redacted;
    UnfoldTurn(s);
  }

  lemma UnfoldMask(s: string, a: nat, at: nat)
    requires NextTurn(s, 0) == Mask(a, at)
    ensures Redacted(s) == s[..a] + MASK + "@" + Redacted(s[at + 1..])
  {
    hide NextTurn, Redacted;
    UnfoldTurn(s);
  }

  /** Redacting twice is redacting once, on every string. */
  lemma {:induction false} RedactionIsIdempotent(s: string)
    ensures Redacted(Redacted(s)) == Redacted(s)
    decreases |s|
  {
    var t := NextTurn(s, 0);
    match t
    case Stop =>
    case Pass(e) =>
      RedactionIsIdempotent(s[e..]);
      IdempotentAfterPass(s, e);
    case Mask(a, at) =>
      RedactionIsIdempotent(s[at + 1..]);
      IdempotentAfterMask(s, a, at);
  }

  // ---- Only userinfo changes ----

  /** A stretch of the message: kept, or text up to a scheme followed by userinfo and an `@`. */
  datatype Piece = Kept(text: string) | Masked(text: string, userinfo: string) {
    function Original(): string {
      if Kept? then text else text + userinfo + "@"
    }

    function Shown(): string {
      if Kept? then text else text + MASK + "@"
    }
  }

  function PieceOf(s: string, t: Turn): Piece
    requires Fits(s, t)
  {
    match t
    case Stop => Kept(s)
    case Pass(e) => Kept(s[..e])
    case Mask(a, at) => Masked(s[..a], s[a..at])
  }

  function Pieces(s: string): seq<Piece>
    decreases |s|
  {
    var t := NextTurn(s, 0);
    [PieceOf(s, t)] + if t.Stop? then [] else Pieces(Rest(s, t))
  }

  function OriginalOf(ps: seq<Piece>): string {
    if ps == [] then "" else ps[0].Original() + OriginalOf(ps[1..])
  }

  function ShownOf(ps: seq<Piece>): string {
    if ps == [] then "" else ps[0].Shown() + ShownOf(ps[1..])
  }

  lemma FirstPiece(p: Piece, ps: seq<Piece>)
    ensures OriginalOf([p] + ps) == p.Original() + OriginalOf(ps)
    ensures ShownOf([p] + ps) == p.Shown() + ShownOf(ps)
  {
  }

  lemma PieceSpells(s: string, t: Turn)
    requires Fits(s, t) && !t.Stop?
    ensures s == PieceOf(s, t).Original() + Rest(s, t)
    ensures Head(s, t) == PieceOf(s, t).Shown()
  {
    if t.Mask? {
      CutAtUserinfo(s, t.start, t.at);
    }
  }

  lemma CutAtUserinfo(s: string, a: nat, at: nat)
    requires a <= at < |s| && s[at] == '@'
    ensures s == s[..a] + s[a..at] + "@" + s[at + 1..]
  {
  }

  /** The message is its pieces joined; the result is the same pieces with each userinfo masked. */
  lemma {:induction false} PiecesSpell(s: string)
    ensures OriginalOf(Pieces(s)) == s
    ensures ShownOf(Pieces(s)) == Redacted(s)
    decreases |s|
  {
    var t := NextTurn(s, 0);
    if t.Stop? {
      FirstPiece(Kept(s), []);
    } else {
      PieceSpells(s, t);
      PiecesSpell(Rest(s, t));
      FirstPiece(PieceOf(s, t), Pieces(Rest(s, t)));
    }
  }

  ghost predicate EndsInScheme(s: string) {
    exists i :: 0 <= i < |s| && SchemeLength(s, i) > 0 && i + SchemeLength(s, i) == |s|
  }

  /** What is masked follows a scheme directly and holds no character that ends an authority. */
  ghost predicate MasksUserinfo(p: Piece) {
    p.Masked? ==> EndsInScheme(p.text) && forall j :: 0 <= j < |p.userinfo| ==> !Terminator(p.userinfo[j])
  }

  lemma TurnMasksUserinfo(s: string)
    ensures MasksUserinfo(PieceOf(s, NextTurn(s, 0)))
  {
    var t := NextTurn(s, 0);
    if t.Mask? {
      var i := NextScheme(s, 0);
      SchemeStable(s, s[..t.start], i, t.start);
      AuthorityEndIsEnd(s, t.start);
    }
  }

  /** Nothing but userinfo is ever changed. */
  lemma {:induction false} OnlyUserinfoChanges(s: string, k: nat)
    requires k < |Pieces(s)|
    ensures MasksUserinfo(Pieces(s)[k])
    decreases |s|
  {
    hide NextTurn, PieceOf, MasksUserinfo;
    if k == 0 {
      TurnMasksUserinfo(s);
    } else {
      OnlyUserinfoChanges(Rest(s, NextTurn(s, 0)), k - 1);
    }
  }
}
