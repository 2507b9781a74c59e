/** What parsing a printed URI gives: the pieces come apart as they were put
    together, exactly when the printer keeps them apart. */
module UriRoundTrip {
  import opened Types
  import opened Text
  import opened Uri
  import opened UriGrammar

  // ---- what a printable URI is ------------------------------------------------

  predicate V6Text(s: string) {
    s != "" && forall i :: 0 <= i < |s| ==> Hex(s[i]) || s[i] == ':' || s[i] == '.'
  }

  predicate V4Text(s: string) {
    s != "" && forall i :: 0 <= i < |s| ==> Digit(s[i]) || s[i] == '.'
  }

  /** Addresses are written the usual way, and read back as they were. */
  ghost predicate Lawful(f: Format) {
    forall a :: f.read(f.show(a)) == Some(a) && if a.V6? then V6Text(f.show(a)) else V4Text(f.show(a))
  }

  /** The token, the ids and the host name avoid reserved characters; the host name,
      if there is one, is not an address and resolves to the address beside it; data
      addresses are of their family. */
  ghost predicate Printable(w: World, u: Ejfat, tt: TokenType, preferV6: bool) {
    && Lawful(w.format) && |u.tokens| == 4
    && AllUnreserved(u.tokens[Index(tt)]) && AllUnreserved(u.lbId) && AllUnreserved(u.sessionId)
    && (u.cpHost != "" ==>
          && AllUnreserved(u.cpHost) && w.format.read(u.cpHost) == None
          && w.resolve(u.cpHost).Some? && Preferred(w.resolve(u.cpHost).value, preferV6) == Some(u.cpAddr))
    && (u.data4.Some? ==> u.data4.value.V4?) && (u.data6.Some? ==> u.data6.value.V6?)
  }

  // ---- the pieces come apart again ----------------------------------------------

  lemma UnreservedAvoids(s: string, stops: set<char>)
    requires AllUnreserved(s) && forall c :: c in stops ==> !Unreserved(c)
    ensures Avoids(s, stops)
  {
  }

  /** WHEN THE PORT CHECK IS RIGHT. The number that stoi reads may be negative, and the
      range check comes after the cut to 16 bits. The check accepts exactly the ports
      from 1024 to 65535 if the number is one that 16 bits hold; of the other numbers
      it is right to refuse exactly those whose low 16 bits are below 1024. */
  lemma PortCheckIsOnLowBits(s: string, n: int)
    requires Stoi(s) == Some(n)
    ensures ToPort(s) == (if 1024 <= n < TWO_16 then Some(n) else None)
      <==> 0 <= n < TWO_16 || n % 0x1_0000 < 1024
  {
  }

  /** WHICH TEXTS ARE TAKEN FOR A PORT: those that start, after blanks and a sign, with
      the digits of a 32-bit number whose low 16 bits are the port, from 1024 on;
      whatever text follows the digits. */
  lemma TakenForPortIff(s: string, p: u16)
    ensures ToPort(s) == Some(p) <==> p >= 1024 && exists t: NumberText ::
      t.Valid() && t.Text() == s && -0x8000_0000 <= t.Number() < 0x8000_0000 && t.Number() % 0x1_0000 == p
  {
    if Stoi(s).Some? { StoiIff(s, Stoi(s).value); }
    forall t: NumberText | t.Valid() && t.Text() == s && -0x8000_0000 <= t.Number() < 0x8000_0000
      ensures Stoi(s) == Some(t.Number())
    {
      StoiIff(s, t.Number());
    }
  }

  /** Text after the digits does not matter. */
  lemma TrailingTextIsIgnored(t: NumberText, rest: string)
    requires t.Valid() && (rest == "" || !Digit(rest[0]))
    ensures ToPort(t.(rest := rest).Text()) == ToPort(t.Text())
  {
    StoiOfNumber(t);
    StoiOfNumber(t.(rest := rest));
  }

  /** Three texts that are not ports and are taken for one: the check would have to
      refuse them. */
  lemma BadPortsAreAccepted()
    ensures ToPort("-1") == Some(65535) && ToPort("66560") == Some(1024) && ToPort("1024x") == Some(1024)
  {
    assert ReadDigits("1", 0) == 1 by {
      assert "1"[1..] == "";
    }
    assert "-1"[1..] == "1" && Stoi("-1") == Some(-1);
    assert "66560"[1..] == "6560" && "6560"[1..] == "560" && "560"[1..] == "60" && "60"[1..] == "0" && "0"[1..] == "";
    assert ReadDigits("0", 6656) == 66560 && ReadDigits("60", 665) == 66560 && ReadDigits("560", 66) == 66560;
    assert ReadDigits("6560", 6) == 66560 && ReadDigits("66560", 0) == 66560;
    assert Stoi("66560") == Some(66560);
    LetterAfterPort();
  }

  lemma LetterAfterPort()
    ensures ToPort("1024x") == Some(1024)
  {
    var t := NumberText("", "", "1024", "x");
    assert t.Text() == "1024x";
    assert "1024"[..3] == "102" && "102"[..2] == "10" && "10"[..1] == "1" && "1"[..0] == "";
    assert Value("1") == 1 && Value("10") == 10 && Value("102") == 102 && Value("1024") == 1024;
    StoiOfNumber(t);
  }

  /** The ports that survive printing and reading. */
  lemma PortReads(p: u16)
    ensures ToPort(ToDecimal(p)) == if p >= 1024 then Some(p) else None
  {
    StoiReads(p);
    PortCheckIsOnLowBits(ToDecimal(p), p);
  }

  lemma AddressReads(f: Format, a: Address)
    requires Lawful(f)
    ensures ToIp(f, Host(f, a)) == Some(a) && ToIp(f, f.show(a)) == Some(a)
  {
    var s := f.show(a);
    assert ("[" + s + "]")[1..|s| + 1] == s;
    assert s[0] != '[';
  }

  predicate QueryText(s: string) {
    forall i :: 0 <= i < |s| ==> QueryChar(s[i]) && s[i] != '%' && s[i] != '+'
  }

  predicate PathText(s: string) {
    s != "" && s[0] == '/' && forall i :: 0 <= i < |s| ==> PathChar(s[i]) && s[i] != '%' && s[i] != '+'
  }

  /** Everything before the query comes apart as it was put together. */
  lemma TextDivides(u: Ejfat, authority: string, path: string, query: Option<string>)
    requires Avoids(authority, {'/', '?', '#'}) && PathText(path) && (query.Some? ==> QueryText(query.value))
    ensures Divide(Scheme(u) + "://" + (authority + (path + if query.Some? then "?" + query.value else "")))
      == Some(Generic(Scheme(u), authority, path, query))
  {
    var g := Generic(Scheme(u), authority, path, query);
    var q := if query.Some? then "?" + query.value else "";
    assert After("?", query) + After("#", None) == q;
    assert Scheme(u) + "://" + (authority + (path + q)) == Written(g, None);
    WrittenReads(g, None);
  }

  // ---- the query ------------------------------------------------------------------

  function Join(ps: seq<string>): string
    requires ps != []
  {
    if |ps| == 1 then ps[0] else ps[0] + ['&'] + Join(ps[1..])
  }

  lemma {:induction false} SplitJoin(ps: seq<string>)
    requires ps != [] && forall i :: 0 <= i < |ps| ==> Avoids(ps[i], {'&'})
    ensures Split(Join(ps), '&') == ps
  {
    if |ps| == 1 {
      SplitFirst(ps[0], "", '&');
    } else {
      SplitFirst(ps[0], Join(ps[1..]), '&');
      SplitJoin(ps[1..]);
    }
  }

  lemma {:induction false} JoinSnoc(ps: seq<string>, p: string)
    requires ps != []
    ensures Join(ps + [p]) == Join(ps) + "&" + p
  {
    if |ps| == 1 {
      assert (ps + [p])[1..] == [p];
    } else {
      JoinSnoc(ps[1..], p);
      assert (ps + [p])[1..] == ps[1..] + [p];
    }
  }

  lemma {:induction false} JoinIsQueryText(ps: seq<string>)
    requires ps != [] && forall i :: 0 <= i < |ps| ==> QueryText(ps[i])
    ensures QueryText(Join(ps))
  {
    if |ps| > 1 { JoinIsQueryText(ps[1..]); }
  }

  function Present(s: string): seq<string> {
    if s != "" then [s] else []
  }

  function SessionText(u: Ejfat): string {
    if u.sessionId != "" then "sessionid=" + u.sessionId else ""
  }

  function AddressPieces(f: Format, u: Ejfat): seq<string> {
    Present(SyncText(f, u)) + Present(Data4Text(f, u)) + Present(Data6Text(f, u))
  }

  lemma JoinFew(a: string, b: string, c: string)
    ensures Join([a, b]) == a + "&" + b && Join([a, b, c]) == a + "&" + b + "&" + c
  {
    assert [a, b][1..] == [b] && [b, c][1..] == [c] && [a, b, c][1..] == [b, c];
    assert Join([c]) == c && Join([b]) == b;
    assert Join([b, c]) == b + ['&'] + c && Join([a, b]) == a + ['&'] + b;
    assert a + ['&'] + (b + ['&'] + c) == a + "&" + b + "&" + c;
  }

  /** Printing what is there with separators between, as the printer does it. */
  lemma SeparatorsJoin(s: string, d4: string, d6: string)
    requires s != "" || d4 != "" || d6 != ""
    ensures var ps := Present(s) + Present(d4) + Present(d6);
      ps != [] && Join(ps) == s + (if s != "" && (d4 != "" || d6 != "") then "&" else "")
                              + (if d4 != "" then d4 + (if d6 != "" then "&" else "") else "") + d6
  {
    JoinFew(s, d4, d6);
    JoinFew(s, d6, "");
    JoinFew(d4, d6, "");
  }

  lemma AddressesPrint(f: Format, u: Ejfat)
    requires HasAddress(u)
    ensures AddressPieces(f, u) != [] && PrintAddresses(f, u) == "?" + Join(AddressPieces(f, u))
  {
    SeparatorsJoin(SyncText(f, u), Data4Text(f, u), Data6Text(f, u));
  }

  lemma AppendLast(a: string, q: string, x: string, t: string)
    requires a == "?" + q && x == "&" + t
    ensures a + x == "?" + (q + "&" + t)
  {
  }

  lemma SessionSuffix(u: Ejfat)
    requires u.sessionId != ""
    ensures "&sessionid=" + u.sessionId == "&" + SessionText(u)
  {
  }

  lemma QueryPrints(f: Format, u: Ejfat)
    requires HasAddress(u)
    ensures AddressPieces(f, u) != []
    ensures PrintQuery(f, u) == "?" + Join(AddressPieces(f, u) + Present(SessionText(u)))
  {
    var ps, t := AddressPieces(f, u), SessionText(u);
    AddressesPrint(f, u);
    if u.sessionId == "" {
      assert ps + [] == ps;
    } else {
      JoinSnoc(ps, t);
      SessionSuffix(u);
      AppendLast(PrintAddresses(f, u), Join(ps), "&" + t, t);
    }
  }

  // ---- reading the query back -------------------------------------------------

  lemma PieceReads(k: string, v: string)
    requires AllUnreserved(k) && QueryText(v)
    ensures ParamOf(k + ("=" + v)) == Some(Param(k, v))
  {
    var piece := k + ("=" + v);
    UnreservedAvoids(k, {'='});
    FirstAt(k, "=" + v, {'='});
    assert piece[..|k|] == k && piece[|k| + 1..] == v;
    DecodePlain(k, true);
    DecodePlain(v, true);
  }

  lemma SocketReads(f: Format, a: Address, port: u16)
    requires Lawful(f)
    ensures ToIpAndPort(f, Host(f, a) + ":" + ToDecimal(port)) == if port >= 1024 then Some((a, port)) else None
  {
    var h, d := Host(f, a), ToDecimal(port);
    assert h + ":" + d == h + [':'] + d;
    assert Avoids(d, {']', ':'});
    LastAt(h, ':', d, {']', ':'});
    var t := h + [':'] + d;
    assert t[..|h|] == h && t[|h| + 1..] == d;
    AddressReads(f, a);
    PortReads(port);
  }

  lemma BareAddressReads(f: Format, a: Address)
    requires Lawful(f)
    ensures ToIpAndPort(f, Host(f, a)) == Some((a, 0))
  {
    var h := Host(f, a);
    AddressReads(f, a);
    if a.V6? {
      assert h == "[" + f.show(a) + [']'] + "";
      LastAt("[" + f.show(a), ']', "", {']', ':'});
    } else {
      assert Avoids(h, {']', ':'});
    }
  }

  lemma {:induction false} ReadPiecesConcat(f: Format, u: Ejfat, a: seq<string>, b: seq<string>)
    ensures ReadPieces(f, u, a + b)
      == match ReadPieces(f, u, a) case Err(e) => Err(e) case Ok(v) => ReadPieces(f, v, b)
    decreases |a|
  {
    if a == [] {
      assert a + b == b;
    } else {
      assert (a + b)[0] == a[0] && (a + b)[1..] == a[1..] + b;
      match ReadPiece(f, u, a[0])
      case Err(_) =>
      case Ok(v) => ReadPiecesConcat(f, v, a[1..], b);
    }
  }

  lemma OnePiece(f: Format, v: Ejfat, k: string, text: string, piece: string)
    requires AllUnreserved(k) && QueryText(text) && piece == k + ("=" + text)
    ensures ParamOf(piece).Some? && ReadPieces(f, v, [piece]) == ReadParam(f, v, Param(k, text))
  {
    PieceReads(k, text);
    assert [piece][1..] == [];
    match ReadParam(f, v, Param(k, text))
    case Ok(x) => assert ReadPieces(f, x, []) == Ok(x);
    case Err(_) =>
  }

  lemma KeysArePlain()
    ensures AllUnreserved("sync") && AllUnreserved("data") && AllUnreserved("sessionid")
  {
  }

  lemma SyncReads(w: World, u: Ejfat, tt: TokenType, pv6: bool, v: Ejfat)
    requires Printable(w, u, tt, pv6) && v.sync == None
    ensures ReadPieces(w.format, v, Present(SyncText(w.format, u)))
      == if u.sync.Some? && u.sync.value.1 < 1024 then Err(BadAddress) else Ok(v.(sync := u.sync))
  {
    if u.sync.Some? {
      var (a, port) := u.sync.value;
      var text := Host(w.format, a) + ":" + ToDecimal(port);
      assert "sync=" + text == "sync" + ("=" + text);
      KeysArePlain();
      OnePiece(w.format, v, "sync", text, "sync=" + text);
      SocketReads(w.format, a, port);
    }
  }

  lemma Data4Reads(w: World, u: Ejfat, tt: TokenType, pv6: bool, v: Ejfat)
    requires Printable(w, u, tt, pv6) && v.data4 == None
    ensures ReadPieces(w.format, v, Present(Data4Text(w.format, u)))
      == Ok(v.(data4 := u.data4, dataPort := if u.data4.Some? then DATAPLANE_PORT else v.dataPort))
  {
    if u.data4.Some? {
      var text := w.format.show(u.data4.value);
      assert "data=" + text == "data" + ("=" + text);
      KeysArePlain();
      OnePiece(w.format, v, "data", text, "data=" + text);
      BareAddressReads(w.format, u.data4.value);
    }
  }

  lemma LiteralIsQueryText(s: string)
    requires V6Text(s)
    ensures QueryText("[" + s + "]")
  {
  }

  lemma Data6Reads(w: World, u: Ejfat, tt: TokenType, pv6: bool, v: Ejfat)
    requires Printable(w, u, tt, pv6) && v.data6 == None
    ensures ReadPieces(w.format, v, Present(Data6Text(w.format, u)))
      == Ok(v.(data6 := u.data6, dataPort := if u.data6.Some? then DATAPLANE_PORT else v.dataPort))
  {
    if u.data6.Some? {
      var text := "[" + w.format.show(u.data6.value) + "]";
      LiteralIsQueryText(w.format.show(u.data6.value));
      assert "data=" + text == "data" + ("=" + text);
      KeysArePlain();
      OnePiece(w.format, v, "data", text, "data=" + text);
      BareAddressReads(w.format, u.data6.value);
    }
  }

  lemma SessionReads(w: World, u: Ejfat, tt: TokenType, pv6: bool, v: Ejfat)
    requires Printable(w, u, tt, pv6) && v.sessionId == ""
    ensures ReadPieces(w.format, v, Present(SessionText(u))) == Ok(v.(sessionId := u.sessionId))
  {
    if u.sessionId != "" {
      assert "sessionid=" + u.sessionId == "sessionid" + ("=" + u.sessionId);
      KeysArePlain();
      OnePiece(w.format, v, "sessionid", u.sessionId, "sessionid=" + u.sessionId);
    }
  }

  // ---- the whole ------------------------------------------------------------------

  lemma HostAvoids(w: World, u: Ejfat, tt: TokenType, pv6: bool)
    requires Printable(w, u, tt, pv6)
    ensures Avoids(HostName(w.format, u) + (":" + ToDecimal(u.cpPort)), {'/', '?', '#', '@'})
  {
    assert Avoids(ToDecimal(u.cpPort), {'/', '?', '#', '@'});
    assert Avoids(HostName(w.format, u), {'/', '?', '#', '@'});
    AvoidsConcat(HostName(w.format, u), ":" + ToDecimal(u.cpPort), {'/', '?', '#', '@'});
  }

  /** The authority comes apart as it was put together. */
  lemma AuthorityReads(w: World, u: Ejfat, tt: TokenType, pv6: bool)
    requires Printable(w, u, tt, pv6)
    ensures DivideAuthority(w.format, Authority(w.format, u, u.tokens[Index(tt)]))
      == Some(HostPort(u.tokens[Index(tt)], HostName(w.format, u), ToDecimal(u.cpPort)))
    ensures Avoids(Authority(w.format, u, u.tokens[Index(tt)]), {'/', '?', '#'})
  {
    var tok, h, port := u.tokens[Index(tt)], HostName(w.format, u), ToDecimal(u.cpPort);
    HostAvoids(w, u, tt, pv6);
    AvoidsConcat(if tok != "" then tok + "@" else "", h + (":" + port), {'/', '?', '#'});
    HostIsText(w, u, tt, pv6);
    AuthorityReadsBack(w.format, Authority(w.format, u, tok), HostPort(tok, h, port), tok != "", true);
  }

  lemma HostIsText(w: World, u: Ejfat, tt: TokenType, pv6: bool)
    requires Printable(w, u, tt, pv6)
    ensures HostText(w.format, HostName(w.format, u))
  {
    var h := HostName(w.format, u);
    if u.cpHost == "" && u.cpAddr.V6? {
      assert h[1..|h| - 1] == w.format.show(u.cpAddr);
    } else {
      assert AllUnreserved(h);
    }
  }

  lemma ControlPlaneReads(w: World, u: Ejfat, tt: TokenType, pv6: bool)
    requires Printable(w, u, tt, pv6)
    ensures var hp := HostPort(u.tokens[Index(tt)], HostName(w.format, u), ToDecimal(u.cpPort));
      ControlPlane(w, hp, hp.host, pv6)
      == if u.cpPort < 1024 then Err(BadControlPlane) else Ok((u.cpHost, u.cpAddr, u.cpPort))
    ensures Decode(HostName(w.format, u), false) == Some(HostName(w.format, u))
  {
    PortReads(u.cpPort);
    DecodePlain(HostName(w.format, u), false);
    if u.cpHost == "" {
      AddressReads(w.format, u.cpAddr);
    } else {
      assert u.cpHost[0] != '[';
    }
  }

  lemma SchemeTells(u: Ejfat)
    ensures Scheme(u) == "ejfat" || Scheme(u) == "ejfats"
    ensures Scheme(u) == "ejfats" <==> u.useTls
  {
    assert |"ejfats"| != |"ejfat"|;
  }

  lemma PartsDecode(w: World, u: Ejfat, tt: TokenType, pv6: bool, path: string, pieces: seq<string>)
    requires Printable(w, u, tt, pv6) && PathText(path)
    requires forall i :: 0 <= i < |pieces| ==> ParamOf(pieces[i]).Some?
    ensures Decode(u.tokens[Index(tt)], false) == Some(u.tokens[Index(tt)])
    ensures Decode(path, false) == Some(path)
    ensures Decodable(HostPort(u.tokens[Index(tt)], HostName(w.format, u), ToDecimal(u.cpPort)), path, pieces)
  {
    ControlPlaneReads(w, u, tt, pv6);
    DecodePlain(u.tokens[Index(tt)], false);
    DecodePlain(path, false);
  }

  lemma FrontIsStart(w: World, u: Ejfat, tt: TokenType, pv6: bool, g: Generic)
    requires Printable(w, u, tt, pv6) && PathText(g.path) && g.scheme == Scheme(u)
    requires forall i :: 0 <= i < |Pieces(g)| ==> ParamOf(Pieces(g)[i]).Some?
    ensures Front(w, g, HostPort(u.tokens[Index(tt)], HostName(w.format, u), ToDecimal(u.cpPort)), tt, pv6)
      == if u.cpPort < 1024 then Err(BadControlPlane)
         else Ok(Start(u.useTls, tt, u.tokens[Index(tt)], (u.cpHost, u.cpAddr, u.cpPort), g.path))
  {
    SchemeTells(u);
    ControlPlaneReads(w, u, tt, pv6);
    PartsDecode(w, u, tt, pv6, g.path, Pieces(g));
  }

  lemma BuildReads(w: World, u: Ejfat, tt: TokenType, pv6: bool, g: Generic, pieces: seq<string>)
    requires Printable(w, u, tt, pv6) && PathText(g.path) && g.scheme == Scheme(u)
    requires pieces == Pieces(g) && forall i :: 0 <= i < |pieces| ==> ParamOf(pieces[i]).Some?
    ensures Build(w, g, HostPort(u.tokens[Index(tt)], HostName(w.format, u), ToDecimal(u.cpPort)), tt, pv6)
      == if u.cpPort < 1024 then Err(BadControlPlane)
         else
           var v := Start(u.useTls, tt, u.tokens[Index(tt)], (u.cpHost, u.cpAddr, u.cpPort), g.path);
           ReadPieces(w.format, v, pieces)
  {
    FrontIsStart(w, u, tt, pv6, g);
  }

  lemma ParseVia(w: World, s: string, tt: TokenType, pv6: bool, g: Generic, hp: HostPort)
    requires Divide(s) == Some(g) && DivideAuthority(w.format, g.authority) == Some(hp)
    ensures Parse(w, s, tt, pv6) == Build(w, g, hp, tt, pv6)
  {
  }

  /** Everything before the query, whatever the path. */
  lemma FrontReads(w: World, u: Ejfat, tt: TokenType, pv6: bool, path: string, query: Option<string>,
                   pieces: seq<string>)
    requires Printable(w, u, tt, pv6) && PathText(path)
    requires query.Some? ==> QueryText(query.value)
    requires pieces == if query.Some? then Split(query.value, '&') else []
    requires forall i :: 0 <= i < |pieces| ==> ParamOf(pieces[i]).Some?
    ensures Parse(w, Scheme(u) + "://" + (Authority(w.format, u, u.tokens[Index(tt)])
                                          + (path + if query.Some? then "?" + query.value else "")), tt, pv6)
      == if u.cpPort < 1024 then Err(BadControlPlane)
         else ReadPieces(w.format,
                         Start(u.useTls, tt, u.tokens[Index(tt)], (u.cpHost, u.cpAddr, u.cpPort), path), pieces)
  {
    var tok := u.tokens[Index(tt)];
    var authority := Authority(w.format, u, tok);
    var hier := authority + (path + if query.Some? then "?" + query.value else "");
    var g := Generic(Scheme(u), authority, path, query);
    AuthorityReads(w, u, tt, pv6);
    TextDivides(u, authority, path, query);
    ParseVia(w, Scheme(u) + "://" + hier, tt, pv6, g, HostPort(tok, HostName(w.format, u), ToDecimal(u.cpPort)));
    BuildReads(w, u, tt, pv6, g, pieces);
  }

  lemma PathEnds(u: Ejfat, extra: string)
    requires Avoids(u.lbId, {'/'}) && Avoids(extra, {'/'})
    ensures var p := Path(u) + extra; p[FindLastOf(p, {'/'}) + 1..] == u.lbId + extra
  {
    var last := u.lbId + extra;
    var before := if u.lbId != "" then "/lb" else "";
    assert Path(u) + extra == before + ['/'] + last;
    LastAt(before, '/', last, {'/'});
    assert (before + ['/'] + last)[|before| + 1..] == last;
  }

  /** What is read back. Without an address there is no question mark, and the
      session id becomes part of the path and so of the LB id. */
  function ReadBack(u: Ejfat, tt: TokenType): Ejfat
    requires |u.tokens| == 4
  {
    var absorbed := !HasAddress(u) && u.sessionId != "";
    Ejfat(u.useTls, ["", "", "", ""][Index(tt) := u.tokens[Index(tt)]], u.cpHost, u.cpAddr, u.cpPort,
          if absorbed then u.lbId + ("&sessionid=" + u.sessionId) else u.lbId, "",
          u.sync, u.data4, u.data6, if u.data4.Some? || u.data6.Some? then DATAPLANE_PORT else 0,
          if absorbed then "" else u.sessionId)
  }

  lemma QueryReads(w: World, u: Ejfat, tt: TokenType, pv6: bool, v: Ejfat)
    requires Printable(w, u, tt, pv6)
    requires v.sync == None && v.data4 == None && v.data6 == None && v.sessionId == "" && v.dataPort == 0
    ensures ReadPieces(w.format, v, AddressPieces(w.format, u) + Present(SessionText(u)))
      == if u.sync.Some? && u.sync.value.1 < 1024 then Err(BadAddress)
         else Ok(v.(sync := u.sync, data4 := u.data4, data6 := u.data6, sessionId := u.sessionId,
                    dataPort := if u.data4.Some? || u.data6.Some? then DATAPLANE_PORT else 0))
  {
    var f := w.format;
    var s, d4, d6 := Present(SyncText(f, u)), Present(Data4Text(f, u)), Present(Data6Text(f, u));
    ReadPiecesConcat(f, v, s + d4 + d6, Present(SessionText(u)));
    ReadPiecesConcat(f, v, s + d4, d6);
    ReadPiecesConcat(f, v, s, d4);
    SyncReads(w, u, tt, pv6, v);
    if !(u.sync.Some? && u.sync.value.1 < 1024) {
      var v1 := v.(sync := u.sync);
      Data4Reads(w, u, tt, pv6, v1);
      var v2 := v1.(data4 := u.data4, dataPort := if u.data4.Some? then DATAPLANE_PORT else 0);
      Data6Reads(w, u, tt, pv6, v2);
      var v3 := v2.(data6 := u.data6, dataPort := if u.data6.Some? then DATAPLANE_PORT else v2.dataPort);
      SessionReads(w, u, tt, pv6, v3);
    }
  }

  /** A parameter that survives being joined, split and decoded. */
  ghost predicate Good(piece: string) {
    QueryText(piece) && Avoids(piece, {'&'}) && ParamOf(piece).Some?
  }

  lemma GoodPiece(k: string, text: string, piece: string)
    requires AllUnreserved(k) && QueryText(text) && Avoids(text, {'&'}) && piece == k + ("=" + text)
    ensures Good(piece)
  {
    PieceReads(k, text);
  }

  lemma SyncIsGood(w: World, u: Ejfat, tt: TokenType, pv6: bool)
    requires Printable(w, u, tt, pv6) && u.sync.Some?
    ensures Good(SyncText(w.format, u))
  {
    KeysArePlain();
    var h, d := Host(w.format, u.sync.value.0), ToDecimal(u.sync.value.1);
    assert Avoids(h, {'&'}) && Avoids(d, {'&'}) && QueryText(h) && QueryText(d);
    assert "sync=" + (h + ":" + d) == "sync" + ("=" + (h + ":" + d));
    GoodPiece("sync", h + ":" + d, SyncText(w.format, u));
  }

  lemma DataIsGood(w: World, u: Ejfat, tt: TokenType, pv6: bool)
    requires Printable(w, u, tt, pv6)
    ensures u.data4.Some? ==> Good(Data4Text(w.format, u))
    ensures u.data6.Some? ==> Good(Data6Text(w.format, u))
  {
    KeysArePlain();
    if u.data4.Some? {
      var text := w.format.show(u.data4.value);
      assert "data=" + text == "data" + ("=" + text);
      GoodPiece("data", text, Data4Text(w.format, u));
    }
    if u.data6.Some? {
      var text := "[" + w.format.show(u.data6.value) + "]";
      assert "data=" + text == "data" + ("=" + text);
      GoodPiece("data", text, Data6Text(w.format, u));
    }
  }

  lemma SessionIsGood(w: World, u: Ejfat, tt: TokenType, pv6: bool)
    requires Printable(w, u, tt, pv6) && u.sessionId != ""
    ensures Good(SessionText(u))
  {
    KeysArePlain();
    assert "sessionid=" + u.sessionId == "sessionid" + ("=" + u.sessionId);
    GoodPiece("sessionid", u.sessionId, SessionText(u));
  }

  ghost predicate AllGood(ps: seq<string>) {
    forall i :: 0 <= i < |ps| ==> Good(ps[i])
  }

  lemma AllGoodConcat(a: seq<string>, s: string)
    requires AllGood(a) && (s != "" ==> Good(s))
    ensures AllGood(a + Present(s))
  {
  }

  lemma GoodPiecesJoin(ps: seq<string>)
    requires ps != [] && AllGood(ps)
    ensures QueryText(Join(ps)) && Split(Join(ps), '&') == ps
    ensures forall i :: 0 <= i < |ps| ==> ParamOf(ps[i]).Some?
  {
    JoinIsQueryText(ps);
    SplitJoin(ps);
  }

  lemma PiecesAreGood(w: World, u: Ejfat, tt: TokenType, pv6: bool)
    requires Printable(w, u, tt, pv6)
    ensures AllGood(AddressPieces(w.format, u) + Present(SessionText(u)))
  {
    if u.sync.Some? { SyncIsGood(w, u, tt, pv6); }
    DataIsGood(w, u, tt, pv6);
    if u.sessionId != "" { SessionIsGood(w, u, tt, pv6); }
    AllGoodConcat([], SyncText(w.format, u));
    assert [] + Present(SyncText(w.format, u)) == Present(SyncText(w.format, u));
    AllGoodConcat(Present(SyncText(w.format, u)), Data4Text(w.format, u));
    AllGoodConcat(Present(SyncText(w.format, u)) + Present(Data4Text(w.format, u)), Data6Text(w.format, u));
    AllGoodConcat(AddressPieces(w.format, u), SessionText(u));
  }

  // ---- main results -----------------------------------------------------------------

  lemma PathIsText(u: Ejfat)
    requires AllUnreserved(u.lbId)
    ensures PathText(Path(u)) && Avoids(u.lbId, {'/'})
  {
    UnreservedAvoids(u.lbId, {'/'});
    if u.lbId != "" { assert Path(u) == "/lb/" + u.lbId; }
  }

  /** What is known once the path is read. */
  function Blank(u: Ejfat, tt: TokenType, lbId: string): Ejfat
    requires |u.tokens| == 4
  {
    Ejfat(u.useTls, ["", "", "", ""][Index(tt) := u.tokens[Index(tt)]], u.cpHost, u.cpAddr, u.cpPort, lbId, "",
          None, None, None, 0, "")
  }

  lemma PathReads(u: Ejfat, tt: TokenType, path: string, extra: string)
    requires |u.tokens| == 4 && Avoids(u.lbId, {'/'}) && Avoids(extra, {'/'}) && path == Path(u) + extra
    ensures Start(u.useTls, tt, u.tokens[Index(tt)], (u.cpHost, u.cpAddr, u.cpPort), path)
      == Blank(u, tt, u.lbId + extra)
  {
    PathEnds(u, extra);
  }

  /** What follows the authority when there is an address. */
  lemma AddressedQuery(w: World, u: Ejfat, tt: TokenType, pv6: bool) returns (query: string, pieces: seq<string>)
    requires Printable(w, u, tt, pv6) && HasAddress(u)
    ensures PrintQuery(w.format, u) == "?" + query && QueryText(query)
    ensures pieces == AddressPieces(w.format, u) + Present(SessionText(u)) && pieces == Split(query, '&')
    ensures forall i :: 0 <= i < |pieces| ==> ParamOf(pieces[i]).Some?
  {
    pieces := AddressPieces(w.format, u) + Present(SessionText(u));
    QueryPrints(w.format, u);
    query := Join(pieces);
    PiecesAreGood(w, u, tt, pv6);
    GoodPiecesJoin(pieces);
  }

  lemma AddressedReads(w: World, u: Ejfat, tt: TokenType, pv6: bool) returns (query: string, pieces: seq<string>)
    requires Printable(w, u, tt, pv6) && HasAddress(u)
    ensures PrintQuery(w.format, u) == "?" + query && PathText(Path(u)) && QueryText(query)
    ensures pieces == Split(query, '&') && forall i :: 0 <= i < |pieces| ==> ParamOf(pieces[i]).Some?
    ensures var v := Start(u.useTls, tt, u.tokens[Index(tt)], (u.cpHost, u.cpAddr, u.cpPort), Path(u));
      ReadPieces(w.format, v, pieces)
      == if u.sync.Some? && u.sync.value.1 < 1024 then Err(BadAddress) else Ok(ReadBack(u, tt))
  {
    query, pieces := AddressedQuery(w, u, tt, pv6);
    PathIsText(u);
    assert Path(u) == Path(u) + "" && u.lbId == u.lbId + "";
    PathReads(u, tt, Path(u), "");
    QueryReads(w, u, tt, pv6, Blank(u, tt, u.lbId));
  }

  lemma ParseWithAddress(w: World, u: Ejfat, tt: TokenType, pv6: bool)
    requires Printable(w, u, tt, pv6) && HasAddress(u)
    ensures Parse(w, Print(w.format, u, tt), tt, pv6) == Outcome(u, tt)
  {
    var query, pieces := AddressedReads(w, u, tt, pv6);
    FrontReads(w, u, tt, pv6, Path(u), Some(query), pieces);
  }

  /** What is printed after the path when there is no address. */
  function Stray(u: Ejfat): string {
    if u.sessionId != "" then "&sessionid=" + u.sessionId else ""
  }

  lemma StrayPrints(f: Format, u: Ejfat)
    requires !HasAddress(u)
    ensures PrintQuery(f, u) == Stray(u)
  {
    assert PrintAddresses(f, u) == "";
  }

  lemma StrayIsPath(u: Ejfat)
    requires AllUnreserved(u.lbId) && AllUnreserved(u.sessionId)
    ensures PathText(Path(u) + Stray(u)) && Avoids(Stray(u), {'/'})
  {
    PathIsText(u);
    UnreservedAvoids(u.sessionId, {'/'});
    AvoidsConcat("&sessionid=", u.sessionId, {'/'});
  }

  lemma StrayReads(u: Ejfat, tt: TokenType)
    requires |u.tokens| == 4 && !HasAddress(u)
    ensures Blank(u, tt, u.lbId + Stray(u)) == ReadBack(u, tt)
  {
    assert u.lbId + "" == u.lbId;
  }

  lemma UnaddressedReads(w: World, u: Ejfat, tt: TokenType, pv6: bool) returns (path: string)
    requires Printable(w, u, tt, pv6) && !HasAddress(u)
    ensures Path(u) + PrintQuery(w.format, u) == path + "" && PathText(path)
    ensures Start(u.useTls, tt, u.tokens[Index(tt)], (u.cpHost, u.cpAddr, u.cpPort), path) == ReadBack(u, tt)
  {
    path := Path(u) + Stray(u);
    PathIsText(u);
    StrayPrints(w.format, u);
    StrayIsPath(u);
    PathReads(u, tt, path, Stray(u));
    StrayReads(u, tt);
    assert path + "" == path;
  }

  lemma ParseWithoutAddress(w: World, u: Ejfat, tt: TokenType, pv6: bool)
    requires Printable(w, u, tt, pv6) && !HasAddress(u)
    ensures Parse(w, Print(w.format, u, tt), tt, pv6) == Outcome(u, tt)
  {
    var path := UnaddressedReads(w, u, tt, pv6);
    FrontReads(w, u, tt, pv6, path, None, []);
    assert ReadPieces(w.format, ReadBack(u, tt), []) == Ok(ReadBack(u, tt));
  }

  function Outcome(u: Ejfat, tt: TokenType): Result<Ejfat, UriError>
    requires |u.tokens| == 4
  {
    if u.cpPort < 1024 then Err(BadControlPlane)
    else if u.sync.Some? && u.sync.value.1 < 1024 then Err(BadAddress)
    else Ok(ReadBack(u, tt))
  }

  /** WHAT PARSING A PRINTED URI GIVES, for every printable URI: an error when a port
      is below 1024, and otherwise what ReadBack says. */
  lemma ParseOfPrint(w: World, u: Ejfat, tt: TokenType, pv6: bool)
    requires Printable(w, u, tt, pv6)
    ensures Parse(w, Print(w.format, u, tt), tt, pv6) == Outcome(u, tt)
  {
    if HasAddress(u) { ParseWithAddress(w, u, tt, pv6); } else { ParseWithoutAddress(w, u, tt, pv6); }
  }

  /** The parts that a round trip is meant to keep. */
  predicate Kept(u: Ejfat, v: Ejfat, tt: TokenType)
    requires |u.tokens| == 4 && |v.tokens| == 4
  {
    && v.useTls == u.useTls && v.cpHost == u.cpHost && v.cpAddr == u.cpAddr && v.cpPort == u.cpPort
    && v.tokens[Index(tt)] == u.tokens[Index(tt)] && v.lbId == u.lbId && v.sessionId == u.sessionId
    && v.sync == u.sync && v.data4 == u.data4 && v.data6 == u.data6
  }

  lemma OutcomeKeeps(u: Ejfat, tt: TokenType, r: Result<Ejfat, UriError>)
    requires |u.tokens| == 4 && r == Outcome(u, tt)
    ensures (r.Ok? && |r.value.tokens| == 4 && Kept(u, r.value, tt))
      <==> && u.cpPort >= 1024 && (u.sync.Some? ==> u.sync.value.1 >= 1024)
           && (u.sessionId == "" || HasAddress(u))
  {
    if !HasAddress(u) && u.sessionId != "" {
      assert |ReadBack(u, tt).lbId| > |u.lbId|;
    }
  }

  /** ROUND TRIP, exactly: printing and parsing keep everything if and only if the
      ports are at least 1024 and a session id comes with an address. */
  lemma RoundTrip(w: World, u: Ejfat, tt: TokenType, pv6: bool)
    requires Printable(w, u, tt, pv6)
    ensures var r := Parse(w, Print(w.format, u, tt), tt, pv6);
      (r.Ok? && |r.value.tokens| == 4 && Kept(u, r.value, tt))
      <==> && u.cpPort >= 1024 && (u.sync.Some? ==> u.sync.value.1 >= 1024)
           && (u.sessionId == "" || HasAddress(u))
  {
    ParseOfPrint(w, u, tt, pv6);
    OutcomeKeeps(u, tt, Parse(w, Print(w.format, u, tt), tt, pv6));
  }

  /** The data port is not printed: it survives exactly when it is the default. */
  lemma DataPortSurvives(w: World, u: Ejfat, tt: TokenType, pv6: bool)
    requires Printable(w, u, tt, pv6) && (u.data4.Some? || u.data6.Some?)
    ensures var r := Parse(w, Print(w.format, u, tt), tt, pv6);
      r.Ok? ==> (r.value.dataPort == u.dataPort <==> u.dataPort == DATAPLANE_PORT)
  {
    ParseOfPrint(w, u, tt, pv6);
  }
}
