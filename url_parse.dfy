/** The part of Python's `urllib.parse.urlparse` that `is_valid_url`
    depends on: the scheme, the network location, and the path with its
    query, fragment and `;params` split off (Python 3.9 and later). */
module UrlParse {
  import opened Common

  datatype ParsedUrl = ParsedUrl(
    scheme: string,
    netloc: string,
    path: string,
    params: string,
    query: string,
    fragment: string)

  predicate IsAsciiAlpha(c: char) {
    'a' <= c <= 'z' || 'A' <= c <= 'Z'
  }

  /** The characters `urlsplit` accepts in a scheme. */
  predicate IsSchemeChar(c: char) {
    IsAsciiAlpha(c) || '0' <= c <= '9' || c == '+' || c == '-' || c == '.'
  }

  /** `s.find(c, start)`: the first index at or after `start` holding `c`,
      or -1. */
  function FindFrom(s: string, c: char, start: nat): (i: int)
    ensures i == -1 || start <= i < |s|
    ensures i == -1 <==> forall k :: start <= k < |s| ==> s[k] != c
    ensures i >= 0 ==> s[i] == c && forall k :: start <= k < i ==> s[k] != c
    decreases |s| - start
  {
    if start >= |s| then -1
    else if s[start] == c then start
    else FindFrom(s, c, start + 1)
  }

  /** `s.rfind(c)`: the last index holding `c`, or -1. */
  function RFind(s: string, c: char): (i: int)
    ensures -1 <= i < |s|
    ensures i == -1 <==> c !in s
    ensures i >= 0 ==> s[i] == c && forall k :: i < k < |s| ==> s[k] != c
  {
    if s == [] then -1
    else if s[|s| - 1] == c then |s| - 1
    else RFind(s[..|s| - 1], c)
  }

  /** The scheme step of `urlsplit`: the text before the first ':' is the
      scheme when it is non-empty, starts with an ASCII letter and holds
      only scheme characters; it is lower-cased. */
  function SplitScheme(url: string): (string, string)
  {
    var i := FindFrom(url, ':', 0);
    if i > 0 && IsAsciiAlpha(url[0]) && forall k :: 0 <= k < i ==> IsSchemeChar(url[k])
    then (Lower(url[..i]), url[i + 1..])
    else ("", url)
  }

  /** The earliest of the delimiters '/', '?' and '#' at or after 2, or the
      end of `s` (`_splitnetloc`). */
  function NetlocEnd(s: string): (e: nat)
    requires |s| >= 2
    ensures 2 <= e <= |s|
    ensures forall k :: 2 <= k < e ==> s[k] != '/' && s[k] != '?' && s[k] != '#'
    ensures e < |s| ==> s[e] == '/' || s[e] == '?' || s[e] == '#'
  {
    var slash := FindFrom(s, '/', 2);
    var question := FindFrom(s, '?', 2);
    var hash := FindFrom(s, '#', 2);
    var e1 := if slash >= 0 then slash else |s|;
    var e2 := if question >= 0 && question < e1 then question else e1;
    if hash >= 0 && hash < e2 then hash else e2
  }

  /** The schemes for which `urlparse` splits `;params` off the path. */
  const UsesParams: seq<string> := ["", "ftp", "hdl", "prospero", "http", "imap", "https", "shttp",
                                    "rtsp", "rtsps", "rtspu", "sip", "sips", "mms", "sftp", "tel"]

  /** `_splitparams`: the ';' that starts the parameters is searched from
      the last '/' on. */
  function SplitParams(path: string): (string, string)
  {
    var from := if '/' in path then RFind(path, '/') else 0;
    var i := FindFrom(path, ';', from);
    if i < 0 then (path, "") else (path[..i], path[i + 1..])
  }

  /** `_splitnetloc` after a leading "//": the host, and what follows it. */
  function SplitNetloc(rest: string): (string, string)
  {
    if |rest| >= 2 && rest[..2] == "//" then (rest[2..NetlocEnd(rest)], rest[NetlocEnd(rest)..])
    else ("", rest)
  }

  /** `s.split(c, 1)` when `c` occurs in `s`, and `(s, "")` otherwise. */
  function SplitAt(s: string, c: char): (string, string)
  {
    var i := FindFrom(s, c, 0);
    if i >= 0 then (s[..i], s[i + 1..]) else (s, "")
  }

  /** `urlparse(url)`. */
  function Parse(url: string): ParsedUrl
  {
    var (scheme, rest) := SplitScheme(url);
    var (netloc, afterNetloc) := SplitNetloc(rest);
    var (beforeHash, fragment) := SplitAt(afterNetloc, '#');
    var (beforeQuery, query) := SplitAt(beforeHash, '?');
    var (path, params) := if scheme in UsesParams && ';' in beforeQuery then SplitParams(beforeQuery) else (beforeQuery, "");
    ParsedUrl(scheme, netloc, path, params, query, fragment)
  }

  /** A URL with a scheme starts with an ASCII letter. */
  lemma SchemeStartsUrl(url: string)
    ensures Parse(url).scheme != "" ==> url != [] && IsAsciiAlpha(url[0])
  {
  }

  /** A URL written as scheme "://" host path, with a lower-case alphabetic
      scheme, a host free of '/', '?' and '#', and a path that starts with
      '/' (or is empty) and holds no '?', '#' or ';'. */
  predicate PlainParts(scheme: string, netloc: string, path: string) {
    && scheme != []
    && (forall k :: 0 <= k < |scheme| ==> 'a' <= scheme[k] <= 'z')
    && (forall k :: 0 <= k < |netloc| ==> netloc[k] != '/' && netloc[k] != '?' && netloc[k] != '#')
    && (path == [] || path[0] == '/')
    && (forall k :: 0 <= k < |path| ==> path[k] != '?' && path[k] != '#' && path[k] != ';')
  }

  lemma SchemeOfPlain(scheme: string, rest: string)
    requires scheme != [] && forall k :: 0 <= k < |scheme| ==> 'a' <= scheme[k] <= 'z'
    ensures SplitScheme(scheme + ":" + rest) == (scheme, rest)
  {
    var url := scheme + ":" + rest;
    assert url[|scheme|] == ':';
    assert FindFrom(url, ':', 0) == |scheme|;
    assert url[..|scheme|] == scheme;
    assert url[|scheme| + 1..] == rest;
    assert Lower(scheme) == scheme;
  }

  lemma NetlocOfPlain(netloc: string, path: string)
    requires forall k :: 0 <= k < |netloc| ==> netloc[k] != '/' && netloc[k] != '?' && netloc[k] != '#'
    requires path == [] || path[0] == '/'
    ensures SplitNetloc("//" + netloc + path) == (netloc, path)
  {
    var rest := "//" + netloc + path;
    assert rest[..2] == "//";
    var e := NetlocEnd(rest);
    assert e == 2 + |netloc| by {
      if path != [] {
        assert rest[2 + |netloc|] == '/';
      }
    }
    assert rest[2..e] == netloc;
    assert rest[e..] == path;
  }

  lemma SplitAtAbsent(s: string, c: char)
    requires forall k :: 0 <= k < |s| ==> s[k] != c
    ensures SplitAt(s, c) == (s, "")
  {
  }

  /** Parsing gives back the parts such a URL was built from. */
  lemma ParsePlain(scheme: string, netloc: string, path: string)
    requires PlainParts(scheme, netloc, path)
    ensures Parse(scheme + "://" + netloc + path) == ParsedUrl(scheme, netloc, path, "", "", "")
  {
    var url := scheme + "://" + netloc + path;
    assert url == scheme + ":" + ("//" + netloc + path);
    SchemeOfPlain(scheme, "//" + netloc + path);
    NetlocOfPlain(netloc, path);
    SplitAtAbsent(path, '#');
    SplitAtAbsent(path, '?');
    assert ';' !in path;
  }
}
