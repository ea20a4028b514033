/** Route patterns and query paths as sequences of tokens.

    Go strings are byte strings; a `char` here stands for one byte. */
module UriTokens {
  import opened Wrappers

  /** A step of a route pattern.  A slash is a constant of its own. */
  datatype Token = Const(text: string) | Param(name: string) | Wild(name: string)

  /** The text up to the next slash, and the rest from that slash on. */
  function SplitRemaining(s: string): (r: (string, string))
    ensures r.0 + r.1 == s
    ensures '/' !in r.0
    ensures r.1 == "" || r.1[0] == '/'
  {
    if s == "" || s[0] == '/' then ("", s)
    else
      var (head, rest) := SplitRemaining(s[1..]);
      ([s[0]] + head, rest)
  }

  lemma {:induction false} SplitRemainingAt(s: string, i: nat)
    requires i <= |s| && '/' !in s[..i] && (i < |s| ==> s[i] == '/')
    ensures SplitRemaining(s) == (s[..i], s[i..])
  {
    if i > 0 {
      assert s[..i] == [s[0]] + s[1..][..i - 1];
      SplitRemainingAt(s[1..], i - 1);
    }
  }

  /** The first step of a pattern, and what remains.  A wildcard takes everything. */
  function NextToken(path: string): (r: (Token, string))
    requires path != ""
    ensures |r.1| < |path|
  {
    if path[0] == '*' then (Wild(path[1..]), "")
    else if path[0] == '/' then (Const("/"), path[1..])
    else
      var (head, rest) := SplitRemaining(path[1..]);
      assert |path[1..]| == |head| + |rest|;
      (if path[0] == ':' then Param(head) else Const([path[0]] + head), rest)
  }

  function RouteTokens(path: string): seq<Token>
    decreases |path|
  {
    if path == "" then [] else [NextToken(path).0] + RouteTokens(NextToken(path).1)
  }

  function Print(t: Token): string {
    match t
    case Const(text) => text
    case Param(name) => ":" + name
    case Wild(name) => "*" + name
  }

  function PrintAll(ts: seq<Token>): string {
    if ts == [] then "" else Print(ts[0]) + PrintAll(ts[1..])
  }

  lemma PrintNext(path: string)
    requires path != ""
    ensures Print(NextToken(path).0) + NextToken(path).1 == path
  {
    if path[0] != '*' && path[0] != '/' {
      var (head, rest) := SplitRemaining(path[1..]);
      assert path == [path[0]] + (head + rest);
    }
  }

  /** Reading a pattern loses nothing. */
  lemma {:induction false} PrintRoute(path: string)
    ensures PrintAll(RouteTokens(path)) == path
    decreases |path|
  {
    if path != "" {
      var rest := NextToken(path).1;
      PrintRoute(rest);
      PrintNext(path);
      assert RouteTokens(path)[1..] == RouteTokens(rest);
    }
  }

  /** What a token can be: a slash, a constant that is not the beginning of a parameter or
      wildcard, or a parameter name up to the next slash. */
  predicate IsToken(t: Token) {
    match t
    case Const(text) => text == "/" || (text != "" && '/' !in text && text[0] != ':' && text[0] != '*')
    case Param(name) => '/' !in name
    case Wild(_) => true
  }

  /** Tokens that a pattern can spell: neighbours are separated by slashes, and a wildcard
      comes last. */
  predicate IsPattern(r: seq<Token>) {
    && (forall i :: 0 <= i < |r| ==> IsToken(r[i]))
    && (forall i :: 0 <= i < |r| - 1 ==> !r[i].Wild? && (r[i] == Const("/") || r[i + 1] == Const("/")))
  }

  lemma {:induction false} TokensArePattern(path: string)
    ensures IsPattern(RouteTokens(path))
    ensures path != "" ==> RouteTokens(path) != []
    decreases |path|
  {
    if path != "" {
      var (t, rest) := NextToken(path);
      TokensArePattern(rest);
      var tail := RouteTokens(rest);
      assert t != Const("/") && rest != "" ==> rest[0] == '/' && tail[0] == Const("/");
      assert t.Wild? ==> tail == [];
      PatternCons(t, tail);
    }
  }

  lemma PatternCons(t: Token, tail: seq<Token>)
    requires IsToken(t) && IsPattern(tail)
    requires tail != [] ==> !t.Wild? && (t == Const("/") || tail[0] == Const("/"))
    ensures IsPattern([t] + tail)
  {
    var r := [t] + tail;
    assert forall i :: 1 <= i < |r| ==> r[i] == tail[i - 1];
  }

  /** What follows a token other than a slash or a wildcard begins with a slash. */
  lemma RestBeginsWithSlash(r: seq<Token>)
    requires IsPattern(r) && r != [] && r[0] != Const("/") && !r[0].Wild?
    ensures var rest := PrintAll(r[1..]); rest == "" || rest[0] == '/'
  {
    if |r| > 1 {
      assert r[1..][0] == Const("/");
    }
  }

  lemma NextPrinted(t: Token, rest: string)
    requires IsToken(t)
    requires t.Wild? ==> rest == ""
    requires t != Const("/") ==> rest == "" || rest[0] == '/'
    ensures NextToken(Print(t) + rest) == (t, rest)
  {
    hide SplitRemaining;
    var path := Print(t) + rest;
    match t
    case Wild(name) =>
      assert path[1..] == name;
    case Param(name) =>
      assert path[1..] == name + rest;
      SplitJoined(name, rest);
    case Const(text) =>
      if text == "/" {
        assert path[1..] == rest;
      } else {
        NextConst(text, rest);
      }
  }

  lemma NextConst(text: string, rest: string)
    requires IsToken(Const(text)) && text != "/" && (rest == "" || rest[0] == '/')
    ensures NextToken(text + rest) == (Const(text), rest)
  {
    hide SplitRemaining;
    var path, name := text + rest, text[1..];
    assert path[0] == text[0] && path[1..] == name + rest && text == [text[0]] + name;
    assert text[0] in text && '/' !in name;
    SplitJoined(name, rest);
  }

  lemma SplitJoined(name: string, rest: string)
    requires '/' !in name && (rest == "" || rest[0] == '/')
    ensures SplitRemaining(name + rest) == (name, rest)
  {
    var s := name + rest;
    assert s[..|name|] == name && s[|name|..] == rest;
    SplitRemainingAt(s, |name|);
  }

  /** Reading undoes printing: every such sequence is what its printed pattern is read as. */
  lemma {:induction false} ReadPrinted(r: seq<Token>)
    requires IsPattern(r)
    ensures RouteTokens(PrintAll(r)) == r
  {
    if r != [] {
      var t, tail := r[0], r[1..];
      ReadPrinted(tail);
      if t != Const("/") && !t.Wild? {
        RestBeginsWithSlash(r);
      }
      NextPrinted(t, PrintAll(tail));
    }
  }

  /** The segments of a query path, every slash a segment of its own. */
  function Segments(path: string): seq<string>
    decreases |path|
  {
    if path == "" then [] else [NextSegment(path).0] + Segments(NextSegment(path).1)
  }

  function NextSegment(path: string): (r: (string, string))
    requires path != ""
    ensures |r.1| < |path| && r.0 + r.1 == path && r.0 != ""
  {
    if path[0] == '/' then ("/", path[1..])
    else
      var (head, rest) := SplitRemaining(path[1..]);
      assert |path[1..]| == |head| + |rest|;
      ([path[0]] + head, rest)
  }

  function Join(segs: seq<string>): string {
    if segs == [] then "" else segs[0] + Join(segs[1..])
  }

  lemma {:induction false} JoinSegments(path: string)
    ensures Join(Segments(path)) == path
    decreases |path|
  {
    if path != "" {
      var rest := NextSegment(path).1;
      JoinSegments(rest);
      assert Segments(path)[1..] == Segments(rest);
    }
  }

  /** Two neighbouring segments cannot both be names. */
  predicate Alternates(segs: seq<string>) {
    && (forall i :: 0 <= i < |segs| ==> segs[i] != "" && (segs[i] == "/" || segs[i][0] != '/'))
    && (forall i :: 0 <= i && i + 1 < |segs| ==> segs[i] == "/" || segs[i + 1] == "/")
  }

  lemma {:induction false} SegmentsAlternate(path: string)
    ensures Alternates(Segments(path))
    ensures path != "" && path[0] == '/' ==> Segments(path) != [] && Segments(path)[0] == "/"
    decreases |path|
  {
    if path != "" {
      var rest := NextSegment(path).1;
      SegmentsAlternate(rest);
      var segs, tail := Segments(path), Segments(rest);
      assert segs == [segs[0]] + tail;
      assert path[0] != '/' && rest != "" ==> tail[0] == "/";
      forall i | 0 <= i < |segs| ensures segs[i] != "" && (segs[i] == "/" || segs[i][0] != '/') {
        assert i > 0 ==> segs[i] == tail[i - 1];
      }
      forall i | 0 <= i && i + 1 < |segs| ensures segs[i] == "/" || segs[i + 1] == "/" {
        assert i > 0 ==> segs[i] == tail[i - 1];
        assert segs[i + 1] == tail[i];
      }
    }
  }

  // ----- How a segment is turned into a key -----

  /** `fmt.Sprintf("%c", b)` of a byte: bytes from 128 on come out as the two bytes of a
      UTF-8 encoded code point. */
  function PercentC(c: char): string {
    if c < 128 as char then [c] else [(192 + c as int / 64) as char, (128 + c as int % 64) as char]
  }

  /** `fmt.Sprintf("%c%s", token, subPath)`: the key under which a constant is stored, and
      the value a parameter is bound to. */
  function Key(text: string): string {
    if text == "" then "" else PercentC(text[0]) + text[1..]
  }

  lemma KeyInjective(a: string, b: string)
    requires a != "" && b != "" && Key(a) == Key(b)
    ensures a == b
  {
    var ka, kb := Key(a), Key(b);
    assert ka[0] == kb[0];
    if a[0] < 128 as char {
      assert b[0] == a[0];
      assert ka[1..] == a[1..] && kb[1..] == b[1..];
    } else {
      assert ka[1] == kb[1];
      assert a[0] as int == b[0] as int;
      assert ka[2..] == a[1..] && kb[2..] == b[1..];
    }
    assert a == [a[0]] + a[1..] && b == [b[0]] + b[1..];
  }

  predicate Ascii(text: string) {
    text != "" && text[0] < 128 as char
  }

  lemma KeyLength(text: string)
    requires text != ""
    ensures Ascii(text) ==> Key(text) == text
    ensures !Ascii(text) ==> |Key(text)| == |text| + 1
  {
  }
}
