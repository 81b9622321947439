/** The `.env` file of a Compose stack: the engine's header line, then the operator's own text. */
module EnvFile {
  import opened Wrappers
  import opened Text

  const MARKER := "# >>> NASty: user-provided .env >>>"
  const HEADER := "COMPOSE_PROJECT_NAME="

  predicate IsAlphanumeric(c: char) {
    'A' <= c <= 'Z' || 'a' <= c <= 'z' || '0' <= c <= '9'
  }

  /** `validate_app_name`. */
  predicate ValidAppName(name: string) {
    && 0 < |name| <= 250
    && IsAlphanumeric(name[0])
    && forall i :: 0 < i < |name| ==> IsAlphanumeric(name[i]) || name[i] in "_-."
  }

  predicate Letter(c: char) {
    c in
    {'A', 'B', 'C', 'D', 'E', 'F', 'G', 'H', 'I', 'J', 'K', 'L', 'M', 'N', 'O', 'P', 'Q', 'R', 'S', 'T', 'U', 'V', 'W',
     'X', 'Y', 'Z', 'a', 'b', 'c', 'd', 'e', 'f', 'g', 'h', 'i', 'j', 'k', 'l', 'm', 'n', 'o', 'p', 'q', 'r', 's', 't',
     'u', 'v', 'w', 'x', 'y', 'z', '0', '1', '2', '3', '4', '5', '6', '7', '8', '9'}
  }

  lemma LetterIff(c: char)
    ensures IsAlphanumeric(c) <==> Letter(c)
    ensures c in "_-." <==> c == '_' || c == '-' || c == '.'
  {
    var others := "_-.";
    assert others[0] == '_' && others[1] == '-' && others[2] == '.';
  }

  /** An app name is 1 to 250 letters and digits, from the second on also `_`, `-` and `.`. */
  lemma ValidAppNameIff(name: string)
    ensures ValidAppName(name) <==>
            && 1 <= |name| <= 250 && Letter(name[0])
            && forall i :: 1 <= i < |name| ==> Letter(name[i]) || name[i] == '_' || name[i] == '-' || name[i] == '.'
  {
    forall c: char
      ensures IsAlphanumeric(c) <==> Letter(c)
      ensures c in "_-." <==> c == '_' || c == '-' || c == '.'
    {
      LetterIff(c);
    }
    hide IsAlphanumeric, Letter;
  }

  /** The operator's text as it is stored: trimmed, and absent when nothing is left. */
  function Stored(userEnv: Option<string>): (r: Option<string>)
    ensures r.Some? ==> |r.value| > 0
  {
    if userEnv.Some? && !Blank(userEnv.value) then Some(Trim(userEnv.value)) else None
  }

  function HeaderLine(name: string): string {
    HEADER + name + "\n"
  }

  function UserPart(marker: string, user: Option<string>): string {
    if user.None? then "" else marker + ("\n" + user.value + "\n")
  }

  /** The layout of the file: the header line, and the stored text behind the marker line. */
  function EnvText(name: string, userEnv: Option<string>): string {
    HeaderLine(name) + UserPart(MARKER, Stored(userEnv))
  }

  /** `render_env_file`. */
  method RenderEnvFile(name: string, userEnv: Option<string>) returns (out: string)
    ensures out == EnvText(name, userEnv)
  {
    out := HEADER + name + "\n";
    if userEnv.Some? {
      var user := Trim(userEnv.value);
      if |user| > 0 {
        out := out + MARKER;
        out := out + "\n";
        out := out + user;
        out := out + "\n";
        assert out == HeaderLine(name) + UserPart(MARKER, Some(user));
      }
    }
  }

  /** The file, letter by letter, for a text that is blank and for one that is not. */
  lemma FileReads(name: string, text: string)
    ensures EnvText(name, None) == "COMPOSE_PROJECT_NAME=" + name + "\n"
    ensures Blank(text) ==> EnvText(name, Some(text)) == "COMPOSE_PROJECT_NAME=" + name + "\n"
    ensures !Blank(text) ==>
              EnvText(name, Some(text)) ==
              "COMPOSE_PROJECT_NAME=" + name + "\n" + "# >>> NASty: user-provided .env >>>" + "\n" + Trim(text) + "\n"
  {
    PartsJoin("COMPOSE_PROJECT_NAME=" + name + "\n", MARKER, Trim(text));
    assert HeaderLine(name) == "COMPOSE_PROJECT_NAME=" + name + "\n";
    hide Trim, HeaderLine, HEADER;
  }

  lemma PartsJoin(head: string, marker: string, user: string)
    ensures head + UserPart(marker, Some(user)) == head + marker + "\n" + user + "\n"
    ensures head + UserPart(marker, None) == head
  {
  }

  function ExtractBehind(file: string, marker: string): Option<string> {
    var at := Find(file, marker);
    if at.None? then None else
    var user := TrimNewlines(file[at.value + |marker|..]);
    if |user| > 0 then Some(user) else None
  }

  /** `extract_user_env`. */
  function ExtractUserEnv(file: string): Option<string> {
    ExtractBehind(file, MARKER)
  }

  // ---- The first marker is the engine's own ----

  lemma {:induction false} FindAfter(head: string, tail: string, p: string)
    requires |p| > 0 && p[0] !in head
    ensures Find(head + tail, p) == if Find(tail, p).None? then None else Some(|head| + Find(tail, p).value)
  {
    if |head| == 0 {
      assert head + tail == tail;
    } else {
      FindAfter(head[1..], tail, p);
      assert (head + tail)[1..] == head[1..] + tail;
      assert (head + tail)[0] != p[0];
    }
  }

  lemma FindAtStart(p: string, rest: string)
    ensures Find(p + rest, p) == Some(0)
  {
  }

  lemma NothingToFind(p: string)
    requires |p| > 0
    ensures Find("", p) == None
  {
  }

  lemma {:induction false} NewlinesComeOff(u: string)
    requires |u| > 0 && u[0] != '\n' && u[|u| - 1] != '\n'
    ensures TrimNewlines("\n" + u + "\n") == u
  {
    var s := "\n" + u + "\n";
    assert s[1..] == u + "\n";
    assert (u + "\n")[..|u|] == u;
    assert TrimNewlines(u + "\n") == TrimNewlines(u);
  }

  lemma TrimmedEdges(s: string)
    requires |Trim(s)| > 0
    ensures !IsWhitespace(Trim(s)[0]) && !IsWhitespace(Trim(s)[|Trim(s)| - 1])
  {
  }

  lemma StoredIsStored(userEnv: Option<string>)
    ensures Stored(Stored(userEnv)) == Stored(userEnv)
  {
  }

  lemma HeaderHasNoHash(name: string)
    requires ValidAppName(name)
    ensures '#' !in HeaderLine(name) && '\n' !in name
  {
  }

  lemma ExtractFromParts(head: string, marker: string, user: Option<string>)
    requires |marker| > 0 && marker[0] !in head
    requires user.Some? ==> |user.value| > 0 && user.value[0] != '\n' && user.value[|user.value| - 1] != '\n'
    ensures ExtractBehind(head + UserPart(marker, user), marker) == user
  {
    var tail := UserPart(marker, user);
    FindAfter(head, tail, marker);
    if user.None? {
      NothingToFind(marker);
    } else {
      var rest := "\n" + user.value + "\n";
      FindAtStart(marker, rest);
      assert (head + tail)[|head| + |marker|..] == rest;
      NewlinesComeOff(user.value);
    }
  }

  /**
   Reading back what was written gives exactly the trimmed text, whatever the text is - the marker
   line itself included - and nothing when the text was blank or absent.
   */
  lemma ExtractInvertsRender(name: string, userEnv: Option<string>)
    requires ValidAppName(name)
    ensures ExtractUserEnv(EnvText(name, userEnv)) == Stored(userEnv)
  {
    HeaderHasNoHash(name);
    assert MARKER[0] == '#';
    if Stored(userEnv).Some? {
      TrimmedEdges(userEnv.value);
    }
    ExtractFromParts(HeaderLine(name), MARKER, Stored(userEnv));
  }

  /** Saving the text that was read back writes the same file again. */
  lemma RenderAgainIsSame(name: string, userEnv: Option<string>)
    requires ValidAppName(name)
    ensures EnvText(name, ExtractUserEnv(EnvText(name, userEnv))) == EnvText(name, userEnv)
  {
    ExtractInvertsRender(name, userEnv);
    StoredIsStored(userEnv);
  }

  lemma FirstLineDecides(prefix: string, a: string, b: string, x: string, y: string)
    requires '\n' !in a && '\n' !in b
    requires prefix + a + "\n" + x == prefix + b + "\n" + y
    ensures a == b
  {
    var f := prefix + a + "\n" + x;
    var n := |prefix|;
    assert f[n + |a|] == '\n' && f[n + |b|] == '\n';
    assert forall i :: 0 <= i < |a| ==> f[n + i] == a[i];
    assert forall i :: 0 <= i < |b| ==> f[n + i] == b[i];
    assert |a| == |b|;
  }

  /** Two stacks share a file exactly when they share the name and the stored text. */
  lemma FileDeterminesStack(a: string, x: Option<string>, b: string, y: Option<string>)
    requires ValidAppName(a) && ValidAppName(b)
    ensures EnvText(a, x) == EnvText(b, y) <==> a == b && Stored(x) == Stored(y)
  {
    if EnvText(a, x) == EnvText(b, y) {
      ExtractInvertsRender(a, x);
      ExtractInvertsRender(b, y);
      HeaderHasNoHash(a);
      HeaderHasNoHash(b);
      FirstLineDecides(HEADER, a, b, UserPart(MARKER, Stored(x)), UserPart(MARKER, Stored(y)));
    }
  }
}
