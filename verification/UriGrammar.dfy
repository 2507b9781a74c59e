/** Which texts are taken apart, and into what: the grammar behind the parser, both ways. */
module UriGrammar {
  import opened Types
  import opened Text
  import opened Uri

  // ---- scheme, authority, path, query, fragment ----------------------------------------

  function After(mark: string, s: Option<string>): string {
    if s.Some? then mark + s.value else ""
  }

  /** Sections 3.1 to 3.4 of RFC 3986: what may stand in the parts. */
  predicate WellFormed(g: Generic) {
    && SchemeText(g.scheme) && Avoids(g.authority, {'/', '?', '#'})
    && (g.path == "" || g.path[0] == '/') && (forall i :: 0 <= i < |g.path| ==> PathChar(g.path[i]))
    && (g.query.Some? ==> QueryChars(g.query.value))
  }

  predicate QueryChars(s: string) {
    forall i :: 0 <= i < |s| ==> QueryChar(s[i])
  }

  /** Section 3.5. */
  predicate FragmentChars(s: string) {
    forall i :: 0 <= i < |s| ==> PathChar(s[i]) || s[i] == '?'
  }

  /** Section 3: the parts with their marks. */
  function Written(g: Generic, fragment: Option<string>): string {
    g.scheme + ("://" + (g.authority + (g.path + (After("?", g.query) + After("#", fragment)))))
  }

  lemma Cut(a: string, b: string)
    ensures (a + b)[..|a|] == a && (a + b)[|a|..] == b
  {
  }

  lemma CutAfter(a: string, b: string)
    requires b != ""
    ensures (a + b)[..|a| + 1] == a + [b[0]] && (a + b)[|a| + 1..] == b[1..] && b == [b[0]] + b[1..]
  {
  }

  /** The text before and from the first of some characters. */
  lemma FirstCut(s: string, stops: set<char>) returns (a: string, b: string)
    ensures s == a + b && a == s[..FindFirstOf(s, stops)] && b == s[FindFirstOf(s, stops)..]
    ensures Avoids(a, stops) && (b == "" || b[0] in stops)
  {
    var i := FindFirstOf(s, stops);
    a, b := s[..i], s[i..];
  }

  lemma QueryHasNoHash(s: string)
    requires QueryChars(s)
    ensures Avoids("?" + s, {'#'})
  {
    forall i | 0 <= i < |s| ensures s[i] != '#' { assert QueryChar(s[i]); }
  }

  lemma TailReads(query: Option<string>, fragment: Option<string>)
    requires (query.Some? ==> QueryChars(query.value)) && (fragment.Some? ==> FragmentChars(fragment.value))
    ensures DivideTail(After("?", query) + After("#", fragment)) == Some(query)
  {
    var q, r := After("?", query), After("#", fragment);
    var tail := q + r;
    if query.Some? { QueryHasNoHash(query.value); }
    FirstAt(q, r, {'#'});
    if fragment.Some? { assert tail[|q| + 1..] == fragment.value; }
    if query.Some? { assert tail[1..|q|] == query.value; }
  }

  lemma MarkCut(mark: string, tail: string)
    requires tail != "" ==> mark == [tail[0]]
    ensures tail == After(mark, if tail == "" then None else Some(tail[1..]))
  {
    if tail != "" { assert tail == [tail[0]] + tail[1..]; }
  }

  lemma TailOf(tail: string) returns (query: Option<string>, fragment: Option<string>)
    requires DivideTail(tail).Some?
    ensures DivideTail(tail) == Some(query) && tail == After("?", query) + After("#", fragment)
    ensures (query.Some? ==> QueryChars(query.value)) && (fragment.Some? ==> FragmentChars(fragment.value))
  {
    var h := FindFirstOf(tail, {'#'});
    var front, back := tail[..h], tail[h..];
    assert tail == front + back;
    assert h > 0 ==> front[1..] == tail[1..h];
    assert h < |tail| ==> back[1..] == tail[h + 1..];
    query, fragment := DivideTail(tail).value, if back == "" then None else Some(back[1..]);
    MarkCut("?", front);
    MarkCut("#", back);
  }

  lemma PathHasNoMarks(path: string)
    requires forall i :: 0 <= i < |path| ==> PathChar(path[i])
    ensures Avoids(path, {'?', '#'})
  {
    forall i | 0 <= i < |path| ensures path[i] != '?' && path[i] != '#' { assert PathChar(path[i]); }
  }

  lemma HierReads(g: Generic, tail: string)
    requires WellFormed(g) && DivideTail(tail) == Some(g.query) && (tail == "" || tail[0] == '?' || tail[0] == '#')
    ensures DivideHier(g.scheme, g.authority + (g.path + tail)) == Some(g)
  {
    var hier := g.authority + (g.path + tail);
    FirstAt(g.authority, g.path + tail, {'/', '?', '#'});
    assert hier[..|g.authority|] == g.authority && hier[|g.authority|..] == g.path + tail;
    PathHasNoMarks(g.path);
    FirstAt(g.path, tail, {'?', '#'});
    assert (g.path + tail)[..|g.path|] == g.path && (g.path + tail)[|g.path|..] == tail;
  }

  lemma QueryOf(tail: string)
    requires DivideTail(tail).Some? && DivideTail(tail).value.Some?
    ensures QueryChars(DivideTail(tail).value.value)
  {
    var query, fragment := TailOf(tail);
  }

  /** The two cuts: before the first slash, question mark or hash, and before the first of
      the last two. */
  lemma CutHier(scheme: string, hier: string) returns (authority: string, path: string, tail: string)
    requires DivideHier(scheme, hier).Some?
    ensures hier == authority + (path + tail) && DivideTail(tail).Some?
    ensures DivideHier(scheme, hier).value == Generic(scheme, authority, path, DivideTail(tail).value)
    ensures Avoids(authority, {'/', '?', '#'}) && (path == "" || path[0] == '/')
    ensures forall i :: 0 <= i < |path| ==> PathChar(path[i])
  {
    var more;
    authority, more := FirstCut(hier, {'/', '?', '#'});
    path, tail := FirstCut(more, {'?', '#'});
    if path != "" { assert path[0] == more[0]; }
  }

  lemma HierOf(scheme: string, hier: string) returns (tail: string)
    requires DivideHier(scheme, hier).Some? && SchemeText(scheme)
    ensures var g := DivideHier(scheme, hier).value;
      WellFormed(g) && g.scheme == scheme && hier == g.authority + (g.path + tail) && DivideTail(tail) == Some(g.query)
  {
    var authority, path;
    authority, path, tail := CutHier(scheme, hier);
    if DivideTail(tail).value.Some? { QueryOf(tail); }
  }

  lemma SchemeReads(scheme: string, hier: string)
    requires SchemeText(scheme)
    ensures Divide(scheme + ("://" + hier)) == DivideHier(scheme, hier)
  {
    var s := scheme + ("://" + hier);
    FirstAt(scheme, "://" + hier, {':', '/', '?', '#'});
    assert s[..|scheme|] == scheme && s[|scheme|..] == "://" + hier && s[|scheme| + 3..] == hier;
  }

  lemma PrefixCut(a: string, s: string)
    requires a <= s
    ensures s == a + s[|a|..]
  {
  }

  lemma DropMore(a: string, b: string, n: nat)
    requires n <= |b|
    ensures (a + b)[|a| + n..] == b[n..]
  {
  }

  lemma SchemeOf(s: string) returns (scheme: string, hier: string)
    requires Divide(s).Some?
    ensures SchemeText(scheme) && s == scheme + ("://" + hier) && Divide(s) == DivideHier(scheme, hier)
  {
    var more;
    scheme, more := FirstCut(s, {':', '/', '?', '#'});
    hier := more[3..];
    PrefixCut("://", more);
    DropMore(scheme, more, 3);
  }

  lemma WrittenReads(g: Generic, fragment: Option<string>)
    requires WellFormed(g) && (fragment.Some? ==> FragmentChars(fragment.value))
    ensures Divide(Written(g, fragment)) == Some(g)
  {
    var tail := After("?", g.query) + After("#", fragment);
    TailReads(g.query, fragment);
    HierReads(g, tail);
    SchemeReads(g.scheme, g.authority + (g.path + tail));
  }

  /** WHICH TEXTS ARE URIS, and what their parts are: exactly the texts that consist of
      lawful parts with the marks of RFC 3986 between, whatever the fragment. */
  lemma DivideIff(s: string, g: Generic)
    ensures Divide(s) == Some(g) <==> WellFormed(g) && exists fragment: Option<string> ::
      (fragment.Some? ==> FragmentChars(fragment.value)) && s == Written(g, fragment)
  {
    if Divide(s) == Some(g) {
      var scheme, hier := SchemeOf(s);
      var tail := HierOf(scheme, hier);
      var query, fragment := TailOf(tail);
      assert s == Written(g, fragment);
    }
    forall fragment: Option<string> |
      WellFormed(g) && (fragment.Some? ==> FragmentChars(fragment.value)) && s == Written(g, fragment)
      ensures Divide(s) == Some(g)
    {
      WrittenReads(g, fragment);
    }
  }

  // ---- the authority ---------------------------------------------------------------

  /** Section 3.2.2: a name, or an IPv6 address in brackets. */
  ghost predicate HostText(f: Format, h: string) {
    if h != "" && h[0] == '[' then
      && |h| >= 2 && h[|h| - 1] == ']' && Avoids(h[1..|h| - 1], {']'})
      && f.read(h[1..|h| - 1]).Some? && f.read(h[1..|h| - 1]).value.V6?
    else forall i :: 0 <= i < |h| ==> NameChar(h[i])
  }

  predicate Digits(s: string) {
    forall i :: 0 <= i < |s| ==> Digit(s[i])
  }

  /** An authority with or without a user part and a port. */
  ghost predicate AuthorityIs(f: Format, a: string, hp: HostPort, user: bool, port: bool) {
    && a == (if user then hp.userinfo + "@" else "") + (hp.host + if port then ":" + hp.port else "")
    && (if user then forall i :: 0 <= i < |hp.userinfo| ==> UserChar(hp.userinfo[i])
        else hp.userinfo == "" && Avoids(a, {'@'}))
    && (!port ==> hp.port == "") && Digits(hp.port) && HostText(f, hp.host)
  }

  lemma PortReadsBack(userinfo: string, host: string, port: Option<string>)
    requires port.Some? ==> Digits(port.value)
    ensures PortAfter(userinfo, host, After(":", port))
      == Some(HostPort(userinfo, host, if port.Some? then port.value else ""))
  {
    if port.Some? { assert After(":", port)[1..] == port.value; }
  }

  lemma Unbracketed(h: string)
    requires |h| >= 2 && h[0] == '[' && h[|h| - 1] == ']'
    ensures h == "[" + h[1..|h| - 1] + "]"
  {
    var inner := h[1..|h| - 1];
    assert h == [h[0]] + inner + [h[|h| - 1]];
  }

  lemma LiteralReadsBack(f: Format, userinfo: string, inner: string, rest: string)
    requires Avoids(inner, {']'}) && f.read(inner).Some? && f.read(inner).value.V6?
    ensures DivideHost(f, userinfo, ("[" + inner + "]") + rest) == PortAfter(userinfo, "[" + inner + "]", rest)
  {
    var host := "[" + inner + "]";
    var hp := host + rest;
    Cut(host, rest);
    assert hp == ("[" + inner) + ("]" + rest);
    AvoidsConcat("[", inner, {']'});
    FirstAt("[" + inner, "]" + rest, {']'});
    assert hp[1..|inner| + 1] == inner;
  }

  lemma NameReadsBack(f: Format, userinfo: string, host: string, rest: string)
    requires (forall i :: 0 <= i < |host| ==> NameChar(host[i])) && (rest == "" || rest[0] == ':')
    ensures DivideHost(f, userinfo, host + rest) == PortAfter(userinfo, host, rest)
  {
    Cut(host, rest);
    forall i | 0 <= i < |host| ensures host[i] != ':' && host[i] != '[' { assert NameChar(host[i]); }
    FirstAt(host, rest, {':'});
    assert host + rest == "" || (host + rest)[0] != '[';
  }

  lemma HostReadsBack(f: Format, userinfo: string, host: string, port: Option<string>)
    requires HostText(f, host) && (port.Some? ==> Digits(port.value))
    ensures DivideHost(f, userinfo, host + After(":", port))
      == Some(HostPort(userinfo, host, if port.Some? then port.value else ""))
  {
    PortReadsBack(userinfo, host, port);
    if host != "" && host[0] == '[' {
      var inner := host[1..|host| - 1];
      Unbracketed(host);
      LiteralReadsBack(f, userinfo, inner, After(":", port));
    } else {
      NameReadsBack(f, userinfo, host, After(":", port));
    }
  }

  lemma PortOf(userinfo: string, host: string, rest: string) returns (port: Option<string>)
    requires PortAfter(userinfo, host, rest).Some?
    ensures rest == After(":", port) && (port.Some? ==> Digits(port.value))
    ensures PortAfter(userinfo, host, rest)
      == Some(HostPort(userinfo, host, if port.Some? then port.value else ""))
  {
    port := if rest == "" then None else Some(rest[1..]);
    MarkCut(":", rest);
  }

  lemma BracketText(f: Format, inner: string)
    requires Avoids(inner, {']'}) && f.read(inner).Some? && f.read(inner).value.V6?
    ensures HostText(f, "[" + inner + "]")
  {
    var h := "[" + inner + "]";
    assert h[1..|h| - 1] == inner;
  }

  /** The cut behind the first closing bracket. */
  lemma BracketCut(text: string) returns (inner: string, rest: string)
    requires text != "" && text[0] == '[' && FindFirstOf(text, {']'}) < |text|
    ensures var j := FindFirstOf(text, {']'});
      && text[..j + 1] == "[" + inner + "]" && text[j + 1..] == rest && text[1..j] == inner
      && Avoids(inner, {']'})
  {
    var j := FindFirstOf(text, {']'});
    inner, rest := text[1..j], text[j + 1..];
  }

  lemma LiteralOf(f: Format, userinfo: string, text: string) returns (host: string, rest: string)
    requires DivideHost(f, userinfo, text).Some? && text != "" && text[0] == '['
    ensures text == host + rest && HostText(f, host)
    ensures DivideHost(f, userinfo, text) == PortAfter(userinfo, host, rest)
  {
    var j := FindFirstOf(text, {']'});
    var inner;
    inner, rest := BracketCut(text);
    host := text[..j + 1];
    BracketText(f, inner);
    assert text == text[..j + 1] + text[j + 1..];
  }

  lemma HostOf(f: Format, userinfo: string, text: string) returns (port: Option<string>)
    requires DivideHost(f, userinfo, text).Some?
    ensures var hp := DivideHost(f, userinfo, text).value;
      && hp.userinfo == userinfo && text == hp.host + After(":", port) && HostText(f, hp.host)
      && Digits(hp.port) && hp.port == if port.Some? then port.value else ""
  {
    var host, rest;
    if text != "" && text[0] == '[' {
      host, rest := LiteralOf(f, userinfo, text);
    } else {
      host, rest := FirstCut(text, {':'});
      assert host != "" ==> host[0] == text[0];
    }
    port := PortOf(userinfo, host, rest);
  }

  lemma UserReadsBack(f: Format, userinfo: string, rest: string)
    requires forall i :: 0 <= i < |userinfo| ==> UserChar(userinfo[i])
    ensures DivideAuthority(f, userinfo + "@" + rest) == DivideHost(f, userinfo, rest)
  {
    var a := userinfo + ("@" + rest);
    assert a == userinfo + "@" + rest;
    forall i | 0 <= i < |userinfo| ensures userinfo[i] != '@' { assert UserChar(userinfo[i]); }
    FirstAt(userinfo, "@" + rest, {'@'});
    Cut(userinfo, "@" + rest);
    assert a[|userinfo| + 1..] == rest;
  }

  lemma AuthorityReadsBack(f: Format, a: string, hp: HostPort, user: bool, port: bool)
    requires AuthorityIs(f, a, hp, user, port)
    ensures DivideAuthority(f, a) == Some(hp)
  {
    var p := if port then Some(hp.port) else None;
    HostReadsBack(f, hp.userinfo, hp.host, p);
    if user {
      UserReadsBack(f, hp.userinfo, hp.host + After(":", p));
    } else {
      assert a == hp.host + After(":", p) && a + "" == a;
      FirstAt(a, "", {'@'});
    }
  }

  lemma UserCut(f: Format, a: string) returns (user: bool, userinfo: string, rest: string)
    requires DivideAuthority(f, a).Some?
    ensures DivideAuthority(f, a) == DivideHost(f, userinfo, rest)
    ensures a == (if user then userinfo + "@" else "") + rest
    ensures if user then forall i :: 0 <= i < |userinfo| ==> UserChar(userinfo[i])
            else userinfo == "" && Avoids(a, {'@'})
  {
    var before, more := FirstCut(a, {'@'});
    user := more != "";
    userinfo, rest := if user then before else "", if user then more[1..] else a;
    if user { CutAfter(before, more); }
  }

  lemma AuthorityOf(f: Format, a: string) returns (user: bool, port: bool)
    requires DivideAuthority(f, a).Some?
    ensures AuthorityIs(f, a, DivideAuthority(f, a).value, user, port)
  {
    var userinfo, rest;
    user, userinfo, rest := UserCut(f, a);
    var p := HostOf(f, userinfo, rest);
    port := p.Some?;
  }

  /** WHICH AUTHORITIES ARE TAKEN APART, and into what. */
  lemma DivideAuthorityIff(f: Format, a: string, hp: HostPort)
    ensures DivideAuthority(f, a) == Some(hp) <==> exists user, port :: AuthorityIs(f, a, hp, user, port)
  {
    if DivideAuthority(f, a) == Some(hp) {
      var user, port := AuthorityOf(f, a);
    }
    forall user, port | AuthorityIs(f, a, hp, user, port) ensures DivideAuthority(f, a) == Some(hp) {
      AuthorityReadsBack(f, a, hp, user, port);
    }
  }

  // ---- addresses with and without a port ----------------------------------------------------

  /** What is read as an address: the text itself, or what is left of it without its first
      and last character if the first is a bracket. */
  lemma IpParts(f: Format, inner: string, c: char)
    ensures ToIp(f, "[" + inner + [c]) == f.read(inner) && ToIp(f, "[") == f.read("") && ToIp(f, "") == f.read("")
    ensures c != '[' ==> ToIp(f, [c] + inner) == f.read([c] + inner)
  {
    assert ("[" + inner + [c])[1..|inner| + 1] == inner;
  }

  /** A port follows the last colon, unless a bracket comes after that. */
  lemma SocketParts(f: Format, h: string, d: string)
    requires Avoids(d, {']', ':'})
    ensures ToIpAndPort(f, h + ":" + d)
      == if ToIp(f, h).Some? && ToPort(d).Some? then Some((ToIp(f, h).value, ToPort(d).value)) else None
    ensures ToIpAndPort(f, h + "]" + d)
      == if ToIp(f, h + "]" + d).Some? then Some((ToIp(f, h + "]" + d).value, 0)) else None
    ensures ToIpAndPort(f, d) == if ToIp(f, d).Some? then Some((ToIp(f, d).value, 0)) else None
  {
    LastAt(h, ':', d, {']', ':'});
    LastAt(h, ']', d, {']', ':'});
    var t := h + [':'] + d;
    assert t == h + ":" + d && t[..|h|] == h && t[|h| + 1..] == d;
    assert h + [']'] + d == h + "]" + d;
  }
}
