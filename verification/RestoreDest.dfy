/** Where a restore may write: resolution of a destination in a file tree with links, jailed under a root. */
module RestoreDest {
  import opened Wrappers

  /** A place in the tree, as the names from the top. */
  type Place = seq<string>

  /** A step of a walk; `Here` is a lone dot, or what is left when a path ends in a slash. */
  datatype Part = Up | Here | Name(name: string)

  type Segments = s: seq<Part> | forall i :: 0 <= i < |s| ==> !s[i].Here?

  /**
   A path as written.  Dots and repeated slashes inside it do not change where it leads; one that ends in a
   slash or a dot (`slash`) asks for a directory.
   */
  datatype Path = Path(absolute: bool, parts: Segments, slash: bool) {
    function Walk(): seq<Part> {
      parts + if slash then [Here] else []
    }
  }

  datatype Node = Dir | File | Link(target: Path)

  type Tree = map<Place, Node>

  /** Linux gives up on a path after this many links. */
  const MAX_LINKS := 40

  datatype DestError = NotAbsolute | OutsideRoot | FsRootMissing | NotEmpty | Io

  // ---- The tree ----

  function Parent(p: Place): Place {
    if |p| == 0 then p else p[..|p| - 1]
  }

  /** Everything lies in a directory. */
  ghost predicate WellFormed(tree: Tree) {
    && [] in tree && tree[[]].Dir?
    && forall p :: p in tree && |p| > 0 ==> IsDirAt(tree, Parent(p))
  }

  predicate IsDirAt(tree: Tree, p: Place) {
    p in tree && tree[p].Dir?
  }

  /** The place exists and no link is passed on the way: what the system calls a canonical path. */
  ghost predicate Canonical(tree: Tree, p: Place) {
    && p in tree && !tree[p].Link?
    && forall k :: 0 <= k < |p| ==> IsDirAt(tree, p[..k])
  }

  function Parts(p: Place): seq<Part> {
    seq(|p|, i requires 0 <= i < |p| => Name(p[i]))
  }

  // ---- Path resolution ----

  datatype Arrival = Arrival(place: Place, links: nat)

  /** Resolution of `todo` from the directory `at`, with the number of links that may still be followed. */
  function Resolve(tree: Tree, at: Place, todo: seq<Part>, links: nat): Option<Arrival>
    decreases links, |todo|
  {
    if |todo| == 0 then Some(Arrival(at, links))
    else if !IsDirAt(tree, at) then None
    else match todo[0]
      case Up => Resolve(tree, Parent(at), todo[1..], links)
      case Here => Resolve(tree, at, todo[1..], links)
      case Name(n) =>
        var next := at + [n];
        if next !in tree then None
        else match tree[next]
          case Link(target) =>
            if links == 0 then None
            else Resolve(tree, if target.absolute then [] else at, target.Walk() + todo[1..], links - 1)
          case _ => Resolve(tree, next, todo[1..], links)
  }

  /** `canonicalize` of an absolute path, where no error intervenes. */
  function RealPath(tree: Tree, parts: seq<Part>): Option<Place> {
    var r := Resolve(tree, [], parts, MAX_LINKS);
    if r.Some? then Some(r.value.place) else None
  }

  lemma CanonicalParent(tree: Tree, p: Place)
    requires WellFormed(tree) && Canonical(tree, p)
    ensures Canonical(tree, Parent(p))
  {
    if |p| > 0 {
      assert IsDirAt(tree, p[..|p| - 1]);
      forall k | 0 <= k < |p| - 1
        ensures IsDirAt(tree, Parent(p)[..k])
      {
        assert Parent(p)[..k] == p[..k];
      }
    }
  }

  lemma CanonicalChild(tree: Tree, p: Place, n: string)
    requires Canonical(tree, p) && IsDirAt(tree, p) && p + [n] in tree && !tree[p + [n]].Link?
    ensures Canonical(tree, p + [n])
  {
    assert forall k :: 0 <= k < |p| ==> (p + [n])[..k] == p[..k];
    assert (p + [n])[..|p|] == p;
  }

  /** Resolution ends at a place that exists and is reached without links. */
  lemma {:induction false} ResolvedIsCanonical(tree: Tree, at: Place, todo: seq<Part>, links: nat)
    requires WellFormed(tree) && Canonical(tree, at)
    ensures Resolve(tree, at, todo, links).Some? ==> Canonical(tree, Resolve(tree, at, todo, links).value.place)
    decreases links, |todo|
  {
    if |todo| > 0 && IsDirAt(tree, at) {
      match todo[0] {
        case Up =>
          CanonicalParent(tree, at);
          ResolvedIsCanonical(tree, Parent(at), todo[1..], links);
        case Here => ResolvedIsCanonical(tree, at, todo[1..], links);
        case Name(n) =>
          if at + [n] in tree {
            match tree[at + [n]] {
              case Link(target) =>
                if links > 0 {
                  ResolvedIsCanonical(tree, if target.absolute then [] else at, target.Walk() + todo[1..], links - 1);
                }
              case _ =>
                CanonicalChild(tree, at, n);
                ResolvedIsCanonical(tree, at + [n], todo[1..], links);
            }
          }
      }
    }
  }

  lemma RealPathIsCanonical(tree: Tree, parts: seq<Part>)
    requires WellFormed(tree)
    ensures RealPath(tree, parts).Some? ==> Canonical(tree, RealPath(tree, parts).value)
  {
    ResolvedIsCanonical(tree, [], parts, MAX_LINKS);
  }

  /** `names[0]` is no link, and every other name is a link to the name before it. */
  ghost predicate LinkChain(tree: Tree, names: seq<string>) {
    && |names| > 0 && IsDirAt(tree, []) && [names[0]] in tree && !tree[[names[0]]].Link?
    && forall k :: 0 < k < |names| ==>
         [names[k]] in tree && tree[[names[k]]] == Link(Path(true, [Name(names[k - 1])], false))
  }

  lemma {:induction false} ChainFollowed(tree: Tree, names: seq<string>, links: nat)
    requires LinkChain(tree, names)
    ensures Resolve(tree, [], [Name(names[|names| - 1])], links).Some? <==> |names| - 1 <= links
  {
    var last := names[|names| - 1];
    var todo := [Name(last)];
    assert [] + [last] == [last] && |todo[1..]| == 0;
    if |names| > 1 && links > 0 {
      var next := [Name(names[|names| - 2])];
      var walk := Path(true, next, false).Walk();
      assert walk + todo[1..] == next;
      ChainFollowed(tree, names[..|names| - 1], links - 1);
    }
  }

  /** Links that lead to links are followed up to forty times. */
  lemma FortyLinks(tree: Tree, names: seq<string>)
    requires LinkChain(tree, names)
    ensures RealPath(tree, [Name(names[|names| - 1])]).Some? <==> |names| <= 41
  {
    ChainFollowed(tree, names, 40);
  }

  /** Resolving a longer path goes on from where the shorter one arrived. */
  lemma {:induction false} ResolveOn(tree: Tree, at: Place, a: seq<Part>, b: seq<Part>, links: nat)
    ensures Resolve(tree, at, a + b, links) ==
            (var r := Resolve(tree, at, a, links);
             if r.None? then None else Resolve(tree, r.value.place, b, r.value.links))
    decreases links, |a|
  {
    if |a| == 0 {
      assert a + b == b;
    } else if IsDirAt(tree, at) {
      assert (a + b)[1..] == a[1..] + b && (a + b)[0] == a[0];
      match a[0] {
        case Up => ResolveOn(tree, Parent(at), a[1..], b, links);
        case Here => ResolveOn(tree, at, a[1..], b, links);
        case Name(n) =>
          if at + [n] in tree {
            match tree[at + [n]] {
              case Link(target) =>
                if links > 0 {
                  assert target.Walk() + (a[1..] + b) == (target.Walk() + a[1..]) + b;
                  ResolveOn(tree, if target.absolute then [] else at, target.Walk() + a[1..], b, links - 1);
                }
              case _ => ResolveOn(tree, at + [n], a[1..], b, links);
            }
          }
      }
    }
  }

  /** Adding nodes to a tree does not redirect a resolution that succeeds. */
  lemma {:induction false} ResolveInLarger(tree: Tree, larger: Tree, at: Place, todo: seq<Part>, links: nat)
    requires forall p :: p in tree ==> p in larger && larger[p] == tree[p]
    requires Resolve(tree, at, todo, links).Some?
    ensures Resolve(larger, at, todo, links) == Resolve(tree, at, todo, links)
    decreases links, |todo|
  {
    if |todo| > 0 {
      match todo[0] {
        case Up => ResolveInLarger(tree, larger, Parent(at), todo[1..], links);
        case Here => ResolveInLarger(tree, larger, at, todo[1..], links);
        case Name(n) =>
          match tree[at + [n]] {
            case Link(target) =>
              ResolveInLarger(tree, larger, if target.absolute then [] else at, target.Walk() + todo[1..], links - 1);
            case _ => ResolveInLarger(tree, larger, at + [n], todo[1..], links);
          }
      }
    }
  }

  // ---- Validating a destination ----

  /** The tree, and the system calls that fail for reasons outside it. */
  datatype World = World(tree: Tree, fails: seq<Part> -> bool, readFails: bool)

  /** `canonicalize`. */
  function Canonicalize(w: World, parts: seq<Part>): Option<Place> {
    if w.fails(parts) then None else RealPath(w.tree, parts)
  }

  /** `is_dir`, which follows links. */
  predicate IsDir(tree: Tree, p: Place) {
    RealPath(tree, Parts(p)).Some? && IsDirAt(tree, RealPath(tree, Parts(p)).value)
  }

  predicate HasEntries(tree: Tree, p: Place) {
    RealPath(tree, Parts(p)).Some? && exists q :: q in tree && |q| > 0 && Parent(q) == RealPath(tree, Parts(p)).value
  }

  predicate OnlyNames(parts: seq<Part>, n: nat) {
    forall m :: n <= m < |parts| ==> parts[m].Name?
  }

  /** What the walk tries to canonicalize: the path as written, then shorter ones without a final slash. */
  function Attempt(dest: Path, n: nat): seq<Part>
    requires n <= |dest.parts|
  {
    if n == |dest.parts| then dest.Walk() else dest.parts[..n]
  }

  function Tried(w: World, dest: Path, n: nat): Option<Place>
    requires n <= |dest.parts|
  {
    Canonicalize(w, Attempt(dest, n))
  }

  /** The attempt with `n` parts is the first to succeed, and only names were left off. */
  ghost predicate SplitsAt(w: World, dest: Path, n: nat) {
    && n <= |dest.parts|
    && Tried(w, dest, n).Some?
    && OnlyNames(dest.parts, n)
    && forall m :: n < m <= |dest.parts| ==> Tried(w, dest, m).None?
  }

  function NamesFrom(parts: seq<Part>, n: nat): Place
    requires n <= |parts| && OnlyNames(parts, n)
  {
    seq(|parts| - n, i requires 0 <= i < |parts| - n => parts[n + i].name)
  }

  /** The canonical existing part with the names left off behind it. */
  ghost function ResolvedAt(w: World, dest: Path, n: nat): Place
    requires SplitsAt(w, dest, n)
  {
    Tried(w, dest, n).value + NamesFrom(dest.parts, n)
  }

  ghost predicate LeadsTo(w: World, dest: Path, p: Place) {
    exists n: nat :: SplitsAt(w, dest, n) && p == ResolvedAt(w, dest, n)
  }

  /** Strictly below `root`. */
  predicate Below(root: Place, p: Place) {
    |root| < |p| && p[..|root|] == root
  }

  /** The names left off, last one first, as the walk collects them. */
  predicate Collected(dest: Path, n: nat, tail: seq<string>) {
    && n <= |dest.parts| && OnlyNames(dest.parts, n) && |tail| == |dest.parts| - n
    && forall i :: 0 <= i < |tail| ==> tail[i] == dest.parts[|dest.parts| - 1 - i].name
  }

  method Reappended(prefix: Place, dest: Path, n: nat, tail: seq<string>) returns (resolved: Place)
    requires Collected(dest, n, tail)
    ensures resolved == prefix + NamesFrom(dest.parts, n)
  {
    resolved := prefix;
    var i := |tail|;
    while i > 0
      invariant 0 <= i <= |tail|
      invariant resolved == prefix + NamesFrom(dest.parts, n)[..|tail| - i]
    {
      i := i - 1;
      resolved := resolved + [tail[i]];
    }
    assert NamesFrom(dest.parts, n)[..|tail|] == NamesFrom(dest.parts, n);
  }

  method Canonicalized(w: World, dest: Path) returns (r: Option<Place>)
    ensures r.None? ==> forall n: nat :: !SplitsAt(w, dest, n)
    ensures r.Some? ==> LeadsTo(w, dest, r.value)
  {
    hide Canonicalize;
    var n: nat := |dest.parts|;
    var tail: seq<string> := [];
    var prefix := Tried(w, dest, n);
    while prefix.None?
      invariant Collected(dest, n, tail)
      invariant prefix == Tried(w, dest, n)
      invariant forall m :: n < m <= |dest.parts| ==> Tried(w, dest, m).None?
      decreases n
    {
      if n == 0 || dest.parts[n - 1].Up? {
        return None;
      }
      tail := tail + [dest.parts[n - 1].name];
      n := n - 1;
      prefix := Tried(w, dest, n);
    }
    var resolved := Reappended(prefix.value, dest, n, tail);
    assert SplitsAt(w, dest, n) && resolved == ResolvedAt(w, dest, n);
    return Some(resolved);
  }

  /** The checks on a resolved destination, in their order. */
  function Verdict(w: World, root: seq<Part>, p: Place, overwrite: bool): Result<Place, DestError> {
    var top := Canonicalize(w, root);
    if top.None? then Err(Io)
    else if !Below(top.value, p) then Err(OutsideRoot)
    else if !IsDir(w.tree, p[..|top.value| + 1]) then Err(FsRootMissing)
    else if !overwrite && IsDir(w.tree, p) then
      if w.readFails then Err(Io) else if HasEntries(w.tree, p) then Err(NotEmpty) else Ok(p)
    else Ok(p)
  }

  /** Nothing lies directly below the directory that `p` leads to. */
  ghost predicate Empty(tree: Tree, p: Place) {
    RealPath(tree, Parts(p)).Some? ==> forall name :: RealPath(tree, Parts(p)).value + [name] !in tree
  }

  /** What a restore may write to. */
  ghost predicate Acceptable(w: World, root: seq<Part>, p: Place, overwrite: bool) {
    && Canonicalize(w, root).Some?
    && (var top := Canonicalize(w, root).value; top < p && IsDir(w.tree, p[..|top| + 1]))
    && (!IsDir(w.tree, p) || overwrite || (!w.readFails && Empty(w.tree, p)))
  }

  lemma EmptyIff(tree: Tree, p: Place)
    ensures HasEntries(tree, p) <==> !Empty(tree, p)
  {
    hide RealPath;
    var dir := RealPath(tree, Parts(p));
    if dir.Some? {
      if q: Place :| q in tree && |q| > 0 && Parent(q) == dir.value {
        assert dir.value + [q[|q| - 1]] == q;
      }
      forall name | dir.value + [name] in tree
        ensures HasEntries(tree, p)
      {
        assert Parent(dir.value + [name]) == dir.value;
      }
    }
  }

  /**
   A place is accepted exactly when it lies strictly below the root in a file system that is there, and
   is no directory, an empty one, or one that may be overwritten.  A refusal as not empty is the one
   that permission to overwrite turns into acceptance.
   */
  lemma AcceptedIff(w: World, root: seq<Part>, p: Place, overwrite: bool)
    ensures Verdict(w, root, p, overwrite) == Ok(p) <==> Acceptable(w, root, p, overwrite)
    ensures Verdict(w, root, p, overwrite).Ok? ==> Verdict(w, root, p, overwrite) == Ok(p)
    ensures Verdict(w, root, p, overwrite) == Err(NotEmpty) <==>
            && !overwrite && Acceptable(w, root, p, true) && IsDir(w.tree, p)
            && !w.readFails && !Empty(w.tree, p)
  {
    EmptyIff(w.tree, p);
    hide IsDir, HasEntries, Empty, Canonicalize;
    var top := Canonicalize(w, root);
    assert top.Some? ==> (Below(top.value, p) <==> top.value < p);
  }

  lemma LeadsToOne(w: World, dest: Path, p: Place, q: Place)
    requires LeadsTo(w, dest, p) && LeadsTo(w, dest, q)
    ensures p == q
  {
    hide Tried, NamesFrom;
    var n: nat :| SplitsAt(w, dest, n) && p == ResolvedAt(w, dest, n);
    var m: nat :| SplitsAt(w, dest, m) && q == ResolvedAt(w, dest, m);
    assert n == m;
  }

  /**
   `validate_restore_dest`. A destination leads to at most one place, so the contract fixes the answer:
   refused when relative or when no attempt succeeds, and otherwise judged where it leads.
   */
  method ValidateRestoreDest(
      w: World, dest: Path, root: seq<Part>, overwrite: bool) returns (r: Result<Place, DestError>)
    ensures r == Err(NotAbsolute) <==> !dest.absolute
    ensures dest.absolute && (forall p :: !LeadsTo(w, dest, p)) ==> r == Err(OutsideRoot)
    ensures forall p :: dest.absolute && LeadsTo(w, dest, p) ==> r == Verdict(w, root, p, overwrite)
  {
    hide IsDir, HasEntries, Canonicalize, LeadsTo, SplitsAt;
    if !dest.absolute {
      return Err(NotAbsolute);
    }
    var resolved := Canonicalized(w, dest);
    if resolved.None? {
      NoSplitNowhere(w, dest);
      return Err(OutsideRoot);
    }
    forall p | LeadsTo(w, dest, p)
      ensures p == resolved.value
    {
      LeadsToOne(w, dest, p, resolved.value);
    }
    var top := Canonicalize(w, root);
    if top.None? {
      return Err(Io);
    }
    if !Below(top.value, resolved.value) {
      return Err(OutsideRoot);
    }
    if !IsDir(w.tree, resolved.value[..|top.value| + 1]) {
      return Err(FsRootMissing);
    }
    if !overwrite && IsDir(w.tree, resolved.value) {
      if w.readFails {
        return Err(Io);
      }
      if HasEntries(w.tree, resolved.value) {
        return Err(NotEmpty);
      }
    }
    return Ok(resolved.value);
  }

  lemma NoSplitNowhere(w: World, dest: Path)
    requires forall n: nat :: !SplitsAt(w, dest, n)
    ensures forall p :: !LeadsTo(w, dest, p)
  {
    hide SplitsAt;
  }

  // ---- What acceptance means ----

  lemma TriedIsCanonical(w: World, parts: seq<Part>)
    requires WellFormed(w.tree) && Canonicalize(w, parts).Some?
    ensures Canonical(w.tree, Canonicalize(w, parts).value)
  {
    hide Canonical, RealPath, WellFormed;
    RealPathIsCanonical(w.tree, parts);
  }

  /**
   An accepted place is a canonical existing place with plain names behind it, strictly below the
   canonical root, in a file system that is there, and holds nothing unless overwriting is allowed.
   */
  lemma AcceptedIsJailed(w: World, dest: Path, root: seq<Part>, p: Place, overwrite: bool) returns (n: nat)
    requires WellFormed(w.tree) && LeadsTo(w, dest, p) && Verdict(w, root, p, overwrite).Ok?
    ensures SplitsAt(w, dest, n) && Canonical(w.tree, Tried(w, dest, n).value)
    ensures p == Tried(w, dest, n).value + NamesFrom(dest.parts, n)
    ensures Canonicalize(w, root).Some? && Canonical(w.tree, Canonicalize(w, root).value)
    ensures Below(Canonicalize(w, root).value, p)
    ensures IsDir(w.tree, p[..|Canonicalize(w, root).value| + 1])
    ensures overwrite || !IsDir(w.tree, p) || !HasEntries(w.tree, p)
  {
    hide Canonicalize, IsDir, HasEntries, NamesFrom, Canonical, WellFormed;
    n :| SplitsAt(w, dest, n) && p == ResolvedAt(w, dest, n);
    TriedIsCanonical(w, Attempt(dest, n));
    TriedIsCanonical(w, root);
  }

  // ---- The names left off ----

  /** Nothing but the tree decides what can be canonicalized. */
  ghost predicate NoFaults(w: World) {
    forall parts :: !w.fails(parts)
  }

  /** The place of the first name left off. */
  ghost function FirstLeftOff(w: World, dest: Path, n: nat): Place
    requires SplitsAt(w, dest, n) && n < |dest.parts|
  {
    Tried(w, dest, n).value + [dest.parts[n].name]
  }

  /** A link stands there, and it leads nowhere. */
  ghost predicate LeadsNowhere(w: World, dest: Path, n: nat)
    requires SplitsAt(w, dest, n) && n < |dest.parts|
  {
    var next := FirstLeftOff(w, dest, n);
    next in w.tree && w.tree[next].Link? && RealPath(w.tree, dest.parts[..n + 1]).None?
  }

  /** The path ends there in a slash, and it is a file or a link to one. */
  ghost predicate FileUnderSlash(w: World, dest: Path, n: nat)
    requires SplitsAt(w, dest, n) && n < |dest.parts|
  {
    && dest.slash && n + 1 == |dest.parts| && FirstLeftOff(w, dest, n) in w.tree
    && RealPath(w.tree, dest.parts).Some? && !IsDirAt(w.tree, RealPath(w.tree, dest.parts).value)
  }

  /** Resolution one name further. */
  lemma OneNameOn(tree: Tree, parts: seq<Part>, n: nat)
    requires WellFormed(tree) && n < |parts| && parts[n].Name? && RealPath(tree, parts[..n]).Some?
    ensures var next := RealPath(tree, parts[..n]).value + [parts[n].name];
            && (next !in tree ==> RealPath(tree, parts[..n + 1]).None?)
            && (next in tree && !tree[next].Link? ==> RealPath(tree, parts[..n + 1]) == Some(next))
  {
    var r := Resolve(tree, [], parts[..n], MAX_LINKS).value;
    var next := r.place + [parts[n].name];
    assert parts[..n + 1] == parts[..n] + [parts[n]];
    ResolveOn(tree, [], parts[..n], [parts[n]], MAX_LINKS);
    assert [parts[n]][1..] == [];
    if next in tree {
      assert Parent(next) == r.place;
    }
  }

  /** A final slash only asks for a directory. */
  lemma SlashAsksForDir(tree: Tree, parts: seq<Part>)
    ensures RealPath(tree, parts + [Here]) ==
            var r := RealPath(tree, parts);
            if r.Some? && IsDirAt(tree, r.value) then r else None
  {
    ResolveOn(tree, [], parts, [Here], MAX_LINKS);
    assert [Here][1..] == [];
  }

  /** The first name left off is not in the tree, or is one of the two exceptions. */
  lemma FirstLeftOffIff(w: World, dest: Path, n: nat)
    requires WellFormed(w.tree) && NoFaults(w) && SplitsAt(w, dest, n) && n < |dest.parts|
    ensures FirstLeftOff(w, dest, n) in w.tree <==> LeadsNowhere(w, dest, n) || FileUnderSlash(w, dest, n)
    ensures FirstLeftOff(w, dest, n) in w.tree ==> !w.tree[FirstLeftOff(w, dest, n)].Dir?
  {
    hide RealPath, WellFormed;
    OneNameOn(w.tree, dest.parts, n);
    assert dest.parts[..|dest.parts|] == dest.parts;
    assert Tried(w, dest, n + 1).None?;
    if n + 1 == |dest.parts| && dest.slash {
      SlashAsksForDir(w.tree, dest.parts);
    } else {
      assert Attempt(dest, n + 1) == dest.parts[..n + 1];
    }
  }

  lemma {:induction false} AbsentBelow(tree: Tree, p: Place, a: nat, b: nat)
    requires WellFormed(tree) && a <= b <= |p| && !IsDirAt(tree, p[..a]) && a < b
    ensures p[..b] !in tree
    decreases b
  {
    if p[..b] in tree {
      assert Parent(p[..b]) == p[..b - 1];
      if a < b - 1 {
        AbsentBelow(tree, p, a, b - 1);
      }
    }
  }

  /** No prefix of `p` longer than `d` is in the tree. */
  ghost predicate AbsentPast(tree: Tree, p: Place, d: nat) {
    forall k :: d < k <= |p| ==> p[..k] !in tree
  }

  lemma AbsentFromFirst(tree: Tree, p: Place, d: nat)
    requires WellFormed(tree) && d < |p|
    ensures AbsentPast(tree, p, d) <==> p[..d + 1] !in tree
  {
    hide WellFormed;
    if p[..d + 1] !in tree {
      forall k | d < k <= |p|
        ensures p[..k] !in tree
      {
        if k > d + 1 {
          AbsentBelow(tree, p, d + 1, k);
        }
      }
    }
  }

  lemma ResolvedShape(w: World, dest: Path, n: nat)
    requires SplitsAt(w, dest, n) && n < |dest.parts|
    ensures var p, d := ResolvedAt(w, dest, n), |Tried(w, dest, n).value|;
            d < |p| && p[..d] == Tried(w, dest, n).value && p[..d + 1] == FirstLeftOff(w, dest, n)
  {
    hide Tried;
    var top, names := Tried(w, dest, n).value, NamesFrom(dest.parts, n);
    assert names[0] == dest.parts[n].name;
    assert (top + names)[..|top|] == top && (top + names)[..|top| + 1] == top + [names[0]];
  }

  /**
   The names that are put back behind the existing part are absent from the tree exactly when the first of
   them is neither a link that leads nowhere nor, under a final slash, a file or a link to one.
   */
  lemma TailAbsentIff(w: World, dest: Path, n: nat)
    requires WellFormed(w.tree) && NoFaults(w) && SplitsAt(w, dest, n) && n < |dest.parts|
    ensures AbsentPast(w.tree, ResolvedAt(w, dest, n), |Tried(w, dest, n).value|) <==>
            !LeadsNowhere(w, dest, n) && !FileUnderSlash(w, dest, n)
  {
    hide LeadsNowhere, FileUnderSlash, AbsentPast, Tried, WellFormed, NoFaults, ResolvedAt, FirstLeftOff;
    FirstLeftOffIff(w, dest, n);
    ResolvedShape(w, dest, n);
    AbsentFromFirst(w.tree, ResolvedAt(w, dest, n), |Tried(w, dest, n).value|);
  }

  // ---- Both exceptions occur, and are accepted ----

  lemma {:induction false} WalkTo(tree: Tree, p: Place, d: nat, links: nat)
    requires d <= |p| && Canonical(tree, p)
    ensures Resolve(tree, p[..d], Parts(p)[d..], links) == Some(Arrival(p, links))
    decreases |p| - d
  {
    if d == |p| {
      assert p[..d] == p;
    } else {
      var next := p[..d + 1];
      assert next == p[..d] + [p[d]];
      assert IsDirAt(tree, p[..d]);
      assert d + 1 == |p| ==> next == p;
      assert d + 1 < |p| ==> IsDirAt(tree, next);
      assert Parts(p)[d..][1..] == Parts(p)[d + 1..];
      WalkTo(tree, p, d + 1, links);
    }
  }

  /** A canonical place is where its own names lead. */
  lemma CanonicalIsFixed(tree: Tree, p: Place)
    requires Canonical(tree, p)
    ensures RealPath(tree, Parts(p)) == Some(p)
  {
    assert p[..0] == [] && Parts(p)[0..] == Parts(p);
    WalkTo(tree, p, 0, MAX_LINKS);
  }

  /** `name` in the directory `base`, with or without a slash behind it. */
  function PathTo(base: Place, name: string, slash: bool): (r: Path)
    ensures r.absolute
  {
    Path(true, Parts(base) + [Name(name)], slash)
  }

  /** `root` is a directory above `base`, and `base` is a directory. */
  ghost predicate Inside(tree: Tree, root: Place, base: Place) {
    WellFormed(tree) && Canonical(tree, base) && IsDirAt(tree, base) && |root| < |base| && root == base[..|root|]
  }

  lemma PrefixIsCanonical(tree: Tree, p: Place, k: nat)
    requires Canonical(tree, p) && IsDirAt(tree, p) && k <= |p|
    ensures Canonical(tree, p[..k]) && IsDirAt(tree, p[..k])
  {
    assert k == |p| ==> p[..k] == p;
    assert k < |p| ==> IsDirAt(tree, p[..k]);
    forall m | 0 <= m < k
      ensures IsDirAt(tree, p[..k][..m])
    {
      assert p[..k][..m] == p[..m];
    }
  }

  lemma SplitsAtBase(tree: Tree, base: Place, name: string, slash: bool)
    requires Canonical(tree, base) && RealPath(tree, PathTo(base, name, slash).Walk()).None?
    ensures var w, dest := World(tree, parts => false, false), PathTo(base, name, slash);
            SplitsAt(w, dest, |base|) && ResolvedAt(w, dest, |base|) == base + [name] && LeadsTo(w, dest, base + [name])
  {
    var w, dest := World(tree, parts => false, false), PathTo(base, name, slash);
    CanonicalIsFixed(tree, base);
    hide RealPath, Canonical;
    assert Attempt(dest, |base|) == Parts(base);
    assert Tried(w, dest, |base| + 1).None?;
    assert NamesFrom(dest.parts, |base|) == [name];
    assert SplitsAt(w, dest, |base|);
  }

  /** A destination that cannot be canonicalized and is no directory passes every check, overwriting or not. */
  lemma ExceptionAccepted(tree: Tree, root: Place, base: Place, name: string, slash: bool, overwrite: bool)
    requires Inside(tree, root, base)
    requires RealPath(tree, PathTo(base, name, slash).Walk()).None? && !IsDir(tree, base + [name])
    ensures var w, dest := World(tree, parts => false, false), PathTo(base, name, slash);
            && LeadsTo(w, dest, base + [name])
            && Verdict(w, Parts(root), base + [name], overwrite) == Ok(base + [name])
  {
    hide RealPath, Canonical, LeadsTo, Verdict, IsDir, WellFormed;
    SplitsAtBase(tree, base, name, slash);
    RootPasses(tree, root, base);
    VerdictAccepts(World(tree, parts => false, false), root, base, name, overwrite);
  }

  lemma RootPasses(tree: Tree, root: Place, base: Place)
    requires Inside(tree, root, base)
    ensures RealPath(tree, Parts(root)) == Some(root) && IsDir(tree, base[..|root| + 1])
  {
    PrefixIsCanonical(tree, base, |root|);
    PrefixIsCanonical(tree, base, |root| + 1);
    CanonicalIsFixed(tree, root);
    CanonicalIsFixed(tree, base[..|root| + 1]);
    hide RealPath, Canonical, WellFormed, Parts;
  }

  lemma VerdictAccepts(w: World, root: Place, base: Place, name: string, overwrite: bool)
    requires |root| < |base| && root == base[..|root|] && !w.fails(Parts(root))
    requires RealPath(w.tree, Parts(root)) == Some(root) && IsDir(w.tree, base[..|root| + 1])
    requires !IsDir(w.tree, base + [name])
    ensures Verdict(w, Parts(root), base + [name], overwrite) == Ok(base + [name])
  {
    hide RealPath, IsDir, HasEntries, Parts;
    var p, d := base + [name], |root|;
    assert p[..d] == root && p[..d + 1] == base[..d + 1];
  }

  /** One name below a directory. */
  lemma LookUp(tree: Tree, base: Place, name: string)
    requires Canonical(tree, base) && IsDirAt(tree, base)
    ensures var next, parts := base + [name], Parts(base) + [Name(name)];
            && Parts(next) == parts
            && (next in tree && tree[next].File? ==> RealPath(tree, parts) == Some(next))
            && (next in tree && tree[next].Link? && tree[next].target.absolute ==>
                  RealPath(tree, parts) ==
                  (var r := Resolve(tree, [], tree[next].target.Walk(), MAX_LINKS - 1);
                   if r.Some? then Some(r.value.place) else None))
  {
    var next, todo := base + [name], [Name(name)];
    assert Parts(next) == Parts(base) + todo;
    assert base[..0] == [] && Parts(base)[0..] == Parts(base);
    WalkTo(tree, base, 0, MAX_LINKS);
    ResolveOn(tree, [], Parts(base), todo, MAX_LINKS);
    assert todo[0] == Name(name) && todo[1..] == [];
    if next in tree && tree[next].Link? {
      assert tree[next].target.Walk() + todo[1..] == tree[next].target.Walk();
    }
  }

  /** A link whose target is missing, anywhere below the root: the link itself becomes the destination. */
  lemma LinkToNowhere(tree: Tree, root: Place, base: Place, name: string, overwrite: bool)
    requires Inside(tree, root, base) && base + [name] in tree
    requires tree[base + [name]] == Link(Path(true, [Name("gone")], false)) && ["gone"] !in tree
    ensures var w := World(tree, parts => false, false);
            && LeadsTo(w, PathTo(base, name, false), base + [name])
            && Verdict(w, Parts(root), base + [name], overwrite) == Ok(base + [name])
  {
    var link := Path(true, [Name("gone")], false);
    assert [] + ["gone"] == ["gone"] && link.Walk() == [Name("gone")];
    assert Resolve(tree, [], link.Walk(), MAX_LINKS - 1).None?;
    LookUp(tree, base, name);
    assert PathTo(base, name, false).Walk() == Parts(base) + [Name(name)];
    hide Resolve, RealPath;
    ExceptionAccepted(tree, root, base, name, false, overwrite);
  }

  /** A file under a final slash, anywhere below the root: the existing file becomes the destination. */
  lemma FileWithSlash(tree: Tree, root: Place, base: Place, name: string, overwrite: bool)
    requires Inside(tree, root, base) && base + [name] in tree && tree[base + [name]].File?
    ensures var w := World(tree, parts => false, false);
            && LeadsTo(w, PathTo(base, name, true), base + [name])
            && Verdict(w, Parts(root), base + [name], overwrite) == Ok(base + [name])
  {
    LookUp(tree, base, name);
    SlashAsksForDir(tree, Parts(base) + [Name(name)]);
    hide RealPath;
    ExceptionAccepted(tree, root, base, name, true, overwrite);
  }

  /** A link to a file under a final slash: the link becomes the destination, wherever the file is. */
  lemma LinkToFileWithSlash(tree: Tree, root: Place, base: Place, name: string, overwrite: bool)
    requires Inside(tree, root, base) && base + [name] in tree
    requires tree[base + [name]] == Link(Path(true, [Name("file")], false)) && ["file"] in tree && tree[["file"]].File?
    ensures var w := World(tree, parts => false, false);
            && RealPath(tree, Parts(base + [name])) == Some(["file"])
            && LeadsTo(w, PathTo(base, name, true), base + [name])
            && Verdict(w, Parts(root), base + [name], overwrite) == Ok(base + [name])
  {
    var link := Path(true, [Name("file")], false);
    assert [] + ["file"] == ["file"] && link.Walk() == [Name("file")] && [Name("file")][1..] == [];
    assert Resolve(tree, [], link.Walk(), MAX_LINKS - 1) == Some(Arrival(["file"], MAX_LINKS - 1));
    LookUp(tree, base, name);
    SlashAsksForDir(tree, Parts(base) + [Name(name)]);
    hide Resolve, RealPath;
    ExceptionAccepted(tree, root, base, name, true, overwrite);
  }

  /** Such trees exist: any node can stand below a root, beside a file at the top and nothing else. */
  lemma SuchATree(fs: string, x: string, name: string, node: Node, file: string) returns (tree: Tree)
    requires fs != file
    ensures Inside(tree, [fs], [fs, x])
    ensures [fs, x, name] in tree && tree[[fs, x, name]] == node && [file] in tree && tree[[file]].File?
    ensures forall other: string :: other != fs && other != file ==> [other] !in tree
  {
    var base, place := [fs, x], [fs, x, name];
    assert [fs][0] != [file][0];
    tree := map[[] := Dir, [fs] := Dir, base := Dir, place := node, [file] := File];
    assert Parent([fs]) == [] && Parent([file]) == [] && Parent(base) == [fs] && Parent(place) == base;
    assert base[..0] == [] && base[..1] == [fs];
    forall other: string | other != fs && other != file
      ensures [other] !in tree
    {
      assert [other][0] != [fs][0] && [other][0] != [file][0];
    }
  }

  // ---- Creating the destination ----

  /** No file and no link stands where a directory has to be made. */
  ghost predicate Creatable(tree: Tree, p: Place) {
    forall k :: 0 <= k <= |p| && p[..k] in tree ==> tree[p[..k]].Dir?
  }

  lemma DirsBelowTop(tree: Tree, p: Place, d: nat, k: nat)
    requires k < d <= |p| && Canonical(tree, p[..d])
    ensures IsDirAt(tree, p[..k])
  {
    assert p[..d][..k] == p[..k];
  }

  lemma CreatableFrom(tree: Tree, p: Place, d: nat)
    requires WellFormed(tree) && d < |p| && Canonical(tree, p[..d])
    requires p[..d + 1] in tree ==> !tree[p[..d + 1]].Dir?
    ensures Creatable(tree, p) <==> IsDirAt(tree, p[..d]) && p[..d + 1] !in tree
  {
    AbsentFromFirst(tree, p, d);
    if IsDirAt(tree, p[..d]) && p[..d + 1] !in tree {
      forall k | 0 <= k <= |p| && p[..k] in tree
        ensures tree[p[..k]].Dir?
      {
        if k < d {
          DirsBelowTop(tree, p, d, k);
        }
      }
    }
  }

  /** When that is so: the existing part is a directory and nothing stands at the first name left off. */
  lemma CreatableIff(w: World, dest: Path, n: nat)
    requires WellFormed(w.tree) && NoFaults(w) && SplitsAt(w, dest, n) && n < |dest.parts|
    ensures Creatable(w.tree, ResolvedAt(w, dest, n)) <==>
            && IsDirAt(w.tree, Tried(w, dest, n).value)
            && !LeadsNowhere(w, dest, n) && !FileUnderSlash(w, dest, n)
  {
    hide Creatable, Canonical, LeadsNowhere, FileUnderSlash, WellFormed, NoFaults;
    hide ResolvedAt, FirstLeftOff, Canonicalize;
    TriedIsCanonical(w, Attempt(dest, n));
    FirstLeftOffIff(w, dest, n);
    ResolvedShape(w, dest, n);
    CreatableFrom(w.tree, ResolvedAt(w, dest, n), |Tried(w, dest, n).value|);
  }

  /** The tree after the missing directories on the way to `p` were made. */
  ghost function Made(tree: Tree, p: Place): Tree {
    tree + map q | q in (set k | 0 <= k <= |p| :: p[..k]) && q !in tree :: Dir
  }

  lemma MadeIsDir(tree: Tree, p: Place, k: nat)
    requires Creatable(tree, p) && k <= |p|
    ensures IsDirAt(Made(tree, p), p[..k])
  {
  }

  lemma {:induction false} WalkDown(tree: Tree, at: Place, parts: seq<Part>, p: Place, links: nat)
    requires OnlyNames(parts, 0) && p == at + NamesFrom(parts, 0)
    requires forall k :: |at| <= k <= |p| ==> IsDirAt(tree, p[..k])
    ensures Resolve(tree, at, parts, links) == Some(Arrival(p, links))
    decreases |parts|
  {
    if |parts| == 0 {
      assert p == at;
    } else {
      assert p[..|at|] == at;
      var next := at + [parts[0].name];
      assert p[..|next|] == next;
      assert p == next + NamesFrom(parts[1..], 0);
      WalkDown(tree, next, parts[1..], p, links);
    }
  }

  lemma ResolvedInMade(tree: Tree, parts: seq<Part>, n: nat, p: Place)
    requires n <= |parts| && OnlyNames(parts, n) && RealPath(tree, parts[..n]).Some? && Creatable(tree, p)
    requires p == RealPath(tree, parts[..n]).value + NamesFrom(parts, n)
    ensures RealPath(Made(tree, p), parts) == Some(p)
  {
    hide Creatable;
    var made := Made(tree, p);
    var r := Resolve(tree, [], parts[..n], MAX_LINKS).value;
    ResolveInLarger(tree, made, [], parts[..n], MAX_LINKS);
    assert parts == parts[..n] + parts[n..];
    ResolveOn(made, [], parts[..n], parts[n..], MAX_LINKS);
    assert NamesFrom(parts[n..], 0) == NamesFrom(parts, n);
    forall k | |r.place| <= k <= |p|
      ensures IsDirAt(made, p[..k])
    {
      MadeIsDir(tree, p, k);
    }
    WalkDown(made, r.place, parts[n..], p, r.links);
  }

  lemma PrefixResolves(w: World, dest: Path, n: nat)
    requires SplitsAt(w, dest, n)
    ensures RealPath(w.tree, dest.parts[..n]) == Some(Tried(w, dest, n).value)
  {
    assert dest.parts[..|dest.parts|] == dest.parts;
    if n == |dest.parts| {
      if dest.slash {
        SlashAsksForDir(w.tree, dest.parts);
      } else {
        assert dest.Walk() == dest.parts;
      }
    }
  }

  /**
   The resolved place is what the destination means: once the missing directories are made, the path
   the operator gave, links, `..` and a final slash included, leads exactly there.
   */
  lemma DestinationKeepsMeaning(w: World, dest: Path, n: nat)
    requires SplitsAt(w, dest, n) && Creatable(w.tree, ResolvedAt(w, dest, n))
    ensures RealPath(Made(w.tree, ResolvedAt(w, dest, n)), dest.Walk()) == Some(ResolvedAt(w, dest, n))
  {
    hide Creatable, Tried, RealPath, Made;
    var p := ResolvedAt(w, dest, n);
    PrefixResolves(w, dest, n);
    ResolvedInMade(w.tree, dest.parts, n, p);
    MadeIsDir(w.tree, p, |p|);
    assert p[..|p|] == p;
    if dest.slash {
      SlashAsksForDir(Made(w.tree, p), dest.parts);
    } else {
      assert dest.Walk() == dest.parts;
    }
  }
}
