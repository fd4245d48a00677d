/** The edge worker in front of the client app: path patterns, hostname resolution and the redirect
    to an environment's custom domain. */
module EdgeWorker {
  import opened Wrappers

  type Id = string

  // ---- Patterns and what they accept ----

  /** The part of regular expressions the patterns here use, anchored at both ends. `Run` is one or
      more characters other than a slash. */
  datatype Regex =
    | Literal(text: string)
    | Run
    | Optional(body: Regex)
    | Cat(left: Regex, right: Regex)

  predicate Segment(s: string) {
    s != "" && '/' !in s
  }

  ghost predicate Accepts(r: Regex, s: string) {
    match r
    case Literal(text) => s == text
    case Run => Segment(s)
    case Optional(body) => s == "" || Accepts(body, s)
    case Cat(left, right) => exists a, b :: Accepts(left, a) && Accepts(right, b) && s == a + b
  }

  lemma Join(left: Regex, right: Regex, a: string, b: string)
    requires Accepts(left, a) && Accepts(right, b)
    ensures Accepts(Cat(left, right), a + b)
  {
  }

  lemma Parts(left: Regex, right: Regex, s: string) returns (a: string, b: string)
    requires Accepts(Cat(left, right), s)
    ensures s == a + b && Accepts(left, a) && Accepts(right, b)
  {
    a, b :| Accepts(left, a) && Accepts(right, b) && s == a + b;
  }

  const SLASH: Regex := Literal("/")
  const NAME: Regex := Cat(Run, Optional(SLASH))
  const FILES: Regex := Cat(Literal("files/"), NAME)
  const MOUNTED: Regex := Cat(Literal("app/"), Cat(Run, SLASH))

  function FilePattern(prefix: string): Regex {
    Cat(Literal(prefix + "files/"), NAME)
  }

  function ManifestPattern(prefix: string): Regex {
    Cat(Literal(prefix + "app.webmanifest"), Optional(SLASH))
  }

  /** The service worker's pattern, the same for both ways of mounting the app. */
  function ServiceWorkerPattern(): Regex {
    Cat(SLASH, Cat(Optional(MOUNTED), FILES))
  }

  lemma LiteralFirst(text: string, r: Regex, s: string)
    ensures Accepts(Cat(Literal(text), r), s) <==> text <= s && Accepts(r, s[|text|..])
  {
    if Accepts(Cat(Literal(text), r), s) {
      var a, b := Parts(Literal(text), r, s);
      assert s[|text|..] == b;
    }
    if text <= s && Accepts(r, s[|text|..]) {
      Join(Literal(text), r, text, s[|text|..]);
      assert s == text + s[|text|..];
    }
  }

  lemma OptionalFirst(body: Regex, r: Regex, s: string)
    ensures Accepts(Cat(Optional(body), r), s) <==> Accepts(r, s) || Accepts(Cat(body, r), s)
  {
    if Accepts(r, s) {
      Join(Optional(body), r, "", s);
      assert "" + s == s;
    }
    if Accepts(Cat(body, r), s) {
      var a, b := Parts(body, r, s);
      Join(Optional(body), r, a, b);
    }
    if Accepts(Cat(Optional(body), r), s) {
      var a, b := Parts(Optional(body), r, s);
      if a == "" {
        assert s == b;
      } else {
        Join(body, r, a, b);
      }
    }
  }

  // ---- Escaping ----

  predicate IsSyntax(c: char) {
    c in ".*+?^${}()|[]\\"
  }

  function EscapeRegex(s: string): string {
    if s == "" then "" else (if IsSyntax(s[0]) then ['\\', s[0]] else [s[0]]) + EscapeRegex(s[1..])
  }

  /** Reads `n` characters that stand for themselves, escaped or not, off the front of a pattern. */
  function ReadLiteral(pattern: string, n: nat): Option<(string, string)>
    decreases n
  {
    if n == 0 then Some(("", pattern))
    else if pattern == "" then None
    else if pattern[0] == '\\' then
      if |pattern| == 1 || !IsSyntax(pattern[1]) then None
      else
        match ReadLiteral(pattern[2..], n - 1)
        case Some((text, rest)) => Some(([pattern[1]] + text, rest))
        case None => None
    else if IsSyntax(pattern[0]) then None
    else
      match ReadLiteral(pattern[1..], n - 1)
      case Some((text, rest)) => Some(([pattern[0]] + text, rest))
      case None => None
  }

  /** Inside any pattern, an escaped text stands for exactly itself and leaves what follows alone. */
  lemma {:induction false} EscapedTextIsLiteral(s: string, rest: string)
    ensures ReadLiteral(EscapeRegex(s) + rest, |s|) == Some((s, rest))
  {
    var pattern := EscapeRegex(s) + rest;
    if s == "" {
      assert pattern == rest;
    } else {
      EscapedTextIsLiteral(s[1..], rest);
      var tail := EscapeRegex(s[1..]) + rest;
      if IsSyntax(s[0]) {
        assert pattern == ['\\', s[0]] + tail;
        assert pattern[2..] == tail;
      } else {
        assert pattern == [s[0]] + tail;
        assert pattern[1..] == tail;
      }
      assert [s[0]] + s[1..] == s;
    }
  }

  // ---- Parsing paths ----

  function IndexOf(s: string, stops: set<char>): (n: nat)
    ensures n <= |s| && (n < |s| ==> s[n] in stops)
    ensures forall i | 0 <= i < n :: s[i] !in stops
  {
    if s == "" || s[0] in stops then 0 else 1 + IndexOf(s[1..], stops)
  }

  lemma IndexAfter(head: string, tail: string, stops: set<char>)
    requires forall c | c in head :: c !in stops
    requires tail == "" || tail[0] in stops
    ensures IndexOf(head + tail, stops) == |head|
  {
    forall i | 0 <= i < |head|
      ensures (head + tail)[i] !in stops
    {
      assert head[i] in head;
    }
    assert tail != "" ==> (head + tail)[|head|] in stops;
  }

  /** The environment ID at the start of a path of the default hostname. */
  function AppPath(path: string): Option<Id> {
    if "/app/" <= path then
      var id := path[5..][..IndexOf(path[5..], {'/'})];
      if id != "" then Some(id) else None
    else None
  }

  function Mount(id: Id): string {
    "/app/" + id + "/"
  }

  /** The segment at the start of the rest of a path. */
  lemma FirstSegment(rest: string, id: Id)
    ensures rest[..IndexOf(rest, {'/'})] == id != "" <==> Segment(id) && (rest == id || id + "/" <= rest)
  {
    if rest[..IndexOf(rest, {'/'})] == id != "" {
      assert rest == id + rest[|id|..];
      if rest[|id|..] != "" {
        assert rest[..|id| + 1] == id + "/";
      }
    }
    if Segment(id) && (rest == id || id + "/" <= rest) {
      assert rest == id + rest[|id|..];
      assert rest != id ==> rest[|id|] == (id + "/")[|id|];
      IndexAfter(id, rest[|id|..], {'/'});
    }
  }

  lemma BehindPrefix(prefix: string, a: string, b: string)
    ensures prefix + a == prefix + b <==> a == b
    ensures prefix + a <= prefix + b <==> a <= b
  {
    assert (prefix + a)[|prefix|..] == a && (prefix + b)[|prefix|..] == b;
    if prefix + a <= prefix + b {
      assert (prefix + b)[..|prefix + a|][|prefix|..] == b[..|a|];
    }
  }

  lemma AppPathMeaning(path: string, id: Id)
    ensures AppPath(path) == Some(id) <==> Segment(id) && (path == "/app/" + id || Mount(id) <= path)
  {
    var app := "/app/";
    assert Mount(id) == app + (id + "/");
    if app <= path {
      var rest := path[|app|..];
      assert path == app + rest;
      FirstSegment(rest, id);
      BehindPrefix(app, id, rest);
      BehindPrefix(app, id + "/", rest);
    }
  }

  function WithoutSlash(s: string): string {
    if s != "" && s[|s| - 1] == '/' then s[..|s| - 1] else s
  }

  /** The file ID in the path of an attachment, if it is one. */
  function MatchFilePath(path: string, prefix: string): Option<string> {
    var head := prefix + "files/";
    if head <= path && Segment(WithoutSlash(path[|head|..])) then Some(WithoutSlash(path[|head|..])) else None
  }

  predicate MatchManifestPath(path: string, prefix: string) {
    path == prefix + "app.webmanifest" || path == prefix + "app.webmanifest/"
  }

  lemma SegmentThenSlash(s: string)
    ensures Accepts(NAME, s) <==> Segment(WithoutSlash(s))
  {
    if Accepts(NAME, s) {
      var a, b := Parts(Run, Optional(SLASH), s);
      assert b == "" || Accepts(SLASH, b);
      assert a[|a| - 1] in a;
      assert WithoutSlash(s) == a;
    }
    if Segment(WithoutSlash(s)) {
      var a := WithoutSlash(s);
      var b := s[|a|..];
      assert s == a + b;
      assert b == "" || Accepts(SLASH, b);
      Join(Run, Optional(SLASH), a, b);
    }
  }

  lemma FilePathMeaning(path: string, prefix: string, id: string)
    ensures MatchFilePath(path, prefix).Some? <==> Accepts(FilePattern(prefix), path)
    ensures MatchFilePath(path, prefix) == Some(id) <==>
            Segment(id) && (path == prefix + "files/" + id || path == prefix + "files/" + id + "/")
  {
    var head := prefix + "files/";
    LiteralFirst(head, NAME, path);
    if head <= path {
      SegmentThenSlash(path[|head|..]);
      assert path == head + path[|head|..];
    }
    if Segment(id) && (path == head + id || path == head + id + "/") {
      assert path[|head|..] == id || path[|head|..] == id + "/";
      assert id[|id| - 1] in id;
      assert WithoutSlash(path[|head|..]) == id;
    }
  }

  lemma ManifestPathMeaning(path: string, prefix: string)
    ensures MatchManifestPath(path, prefix) <==> Accepts(ManifestPattern(prefix), path)
  {
    var head := prefix + "app.webmanifest";
    LiteralFirst(head, Optional(SLASH), path);
    if head <= path {
      assert path == head + path[|head|..];
    }
  }

  /** The service worker caches exactly the paths the edge worker reads as attachments, in one of its two
      ways of mounting the app: at the root of a custom domain or under the environment's ID. */
  lemma ServiceWorkerAcceptsMounted(path: string)
    ensures Accepts(ServiceWorkerPattern(), path) <==>
            || MatchFilePath(path, "/").Some?
            || (AppPath(path).Some? && MatchFilePath(path, Mount(AppPath(path).value)).Some?)
  {
    LiteralFirst("/", Cat(Optional(MOUNTED), FILES), path);
    if "/" <= path {
      var rest := path[1..];
      assert path == "/" + rest;
      OptionalFirst(MOUNTED, FILES, rest);
      AtRoot(path, rest);
      UnderMount(path, rest);
    } else {
      assert !("/" + "files/" <= path);
    }
  }

  lemma UnderMount(path: string, rest: string)
    requires path == "/" + rest
    ensures Accepts(Cat(MOUNTED, FILES), rest) <==>
            AppPath(path).Some? && MatchFilePath(path, Mount(AppPath(path).value)).Some?
  {
    if Accepts(Cat(MOUNTED, FILES), rest) {
      var id, tail := MountThenFile(rest);
      AtMount(path, id, tail);
    }
    if AppPath(path).Some? && MatchFilePath(path, Mount(AppPath(path).value)).Some? {
      ParsedAtMount(path, rest, AppPath(path).value);
    }
  }

  lemma ParsedAtMount(path: string, rest: string, id: Id)
    requires path == "/" + rest
    requires AppPath(path) == Some(id) && MatchFilePath(path, Mount(id)).Some?
    ensures Accepts(Cat(MOUNTED, FILES), rest)
  {
    AppPathMeaning(path, id);
    var tail := path[|Mount(id) + "files/"|..];
    assert path == Mount(id) + "files/" + tail;
    SegmentThenSlash(tail);
    FileAfterMount(id, tail);
    Regroup(id, tail);
    assert rest == path[1..];
  }

  lemma Regroup(id: Id, tail: string)
    ensures Mount(id) + "files/" + tail == "/" + (("app/" + id + "/") + ("files/" + tail))
  {
  }

  lemma AtRoot(path: string, rest: string)
    requires path == "/" + rest
    ensures Accepts(FILES, rest) <==> MatchFilePath(path, "/").Some?
  {
    LiteralFirst("files/", NAME, rest);
    LiteralFirst("/" + "files/", NAME, path);
    FilePathMeaning(path, "/", "");
    if "files/" <= rest {
      assert path[..7] == "/" + rest[..6];
      assert path[7..] == rest[6..];
    }
    if "/" + "files/" <= path {
      assert rest[..6] == path[..7][1..];
      assert path[7..] == rest[6..];
    }
  }

  lemma AtMount(path: string, id: Id, tail: string)
    requires Segment(id) && path == "/" + ("app/" + id + "/files/" + tail)
    ensures AppPath(path) == Some(id)
    ensures MatchFilePath(path, Mount(id)).Some? <==> Accepts(NAME, tail)
  {
    assert path == Mount(id) + ("files/" + tail);
    AppPathMeaning(path, id);
    SegmentThenSlash(tail);
    assert path[|Mount(id) + "files/"|..] == tail;
  }

  lemma MountThenFile(rest: string) returns (id: Id, tail: string)
    requires Accepts(Cat(MOUNTED, FILES), rest)
    ensures Segment(id) && rest == "app/" + id + "/files/" + tail && Accepts(NAME, tail)
  {
    var a, b := Parts(MOUNTED, FILES, rest);
    var app, c := Parts(Literal("app/"), Cat(Run, SLASH), a);
    var run, slash := Parts(Run, SLASH, c);
    var files, name := Parts(Literal("files/"), NAME, b);
    id, tail := run, name;
    assert rest == (app + (run + slash)) + (files + name);
    assert slash + files == "/files/";
    RegroupFive(app, run, slash, files, name);
  }

  lemma RegroupFive(a: string, b: string, c: string, d: string, e: string)
    ensures (a + (b + c)) + (d + e) == a + b + (c + d) + e
  {
  }

  lemma FileAfterMount(id: Id, tail: string)
    requires Segment(id) && Accepts(NAME, tail)
    ensures Accepts(Cat(MOUNTED, FILES),
                    ("app/" + id + "/") + ("files/" + tail))
  {
    assert Accepts(SLASH, "/") && Accepts(Literal("app/"), "app/") && Accepts(Literal("files/"), "files/");
    Join(Run, SLASH, id, "/");
    Join(Literal("app/"), Cat(Run, SLASH), "app/", id + "/");
    assert "app/" + (id + "/") == "app/" + id + "/";
    Join(Literal("files/"), NAME, "files/", tail);
    Join(MOUNTED, FILES, "app/" + id + "/", "files/" + tail);
  }
}
