/** What the parser answers, parameter by parameter: which query decides which field, and
    which parameter is refused. */
module UriQuery {
  import opened Types
  import opened Text
  import opened Uri
  import opened UriGrammar
  import opened UriRoundTrip

  // ---- one parameter ------------------------------------------------------------------

  /** Why a parameter is refused, if it is. */
  function Refusal(f: Format, piece: string): Option<UriError> {
    match ParamOf(piece)
    case None => Some(BadUri)
    case Some(p) =>
      if p.key == "sessionid" then None
      else if ToIpAndPort(f, p.value) == None then Some(BadAddress)
      else if p.key == "sync" || p.key == "data" then None
      else Some(UnknownParam)
  }

  ghost predicate HasKey(piece: string, key: string) {
    ParamOf(piece).Some? && ParamOf(piece).value.key == key
  }

  /** The value of the last parameter with the key. */
  ghost function LastOf(pieces: seq<string>, key: string): Option<string> {
    if pieces == [] then None
    else
      var last := pieces[|pieces| - 1];
      if HasKey(last, key) then Some(ParamOf(last).value.value) else LastOf(pieces[..|pieces| - 1], key)
  }

  /** The last data address of a family. */
  ghost function LastData(f: Format, pieces: seq<string>, v6: bool): Option<Address> {
    if pieces == [] then None
    else
      var last := pieces[|pieces| - 1];
      if HasKey(last, "data") && ToIpAndPort(f, ParamOf(last).value.value).Some?
         && ToIpAndPort(f, ParamOf(last).value.value).value.0.V6? == v6
      then Some(ToIpAndPort(f, ParamOf(last).value.value).value.0)
      else LastData(f, pieces[..|pieces| - 1], v6)
  }

  /** The fields as the query decides them: each by the last parameter that is about it;
      a data address without a port stands for 19522. */
  ghost predicate Decided(f: Format, u: Ejfat, pieces: seq<string>, v: Ejfat) {
    var session, sync, data := LastOf(pieces, "sessionid"), LastOf(pieces, "sync"), LastOf(pieces, "data");
    && v.sessionId == (if session.Some? then session.value else u.sessionId)
    && v.sync == (if sync.Some? then ToIpAndPort(f, sync.value) else u.sync)
    && v.data4 == (if LastData(f, pieces, false).Some? then LastData(f, pieces, false) else u.data4)
    && v.data6 == (if LastData(f, pieces, true).Some? then LastData(f, pieces, true) else u.data6)
    && (data.Some? ==> ToIpAndPort(f, data.value).Some?)
    && v.dataPort == (if data.None? then u.dataPort
                      else if ToIpAndPort(f, data.value).value.1 == 0 then 19522
                      else ToIpAndPort(f, data.value).value.1)
    && v.useTls == u.useTls && v.tokens == u.tokens && v.cpHost == u.cpHost && v.cpAddr == u.cpAddr
    && v.cpPort == u.cpPort && v.lbId == u.lbId && v.lbName == u.lbName
  }

  lemma ReadPiecesSnoc(f: Format, u: Ejfat, pieces: seq<string>)
    requires pieces != []
    ensures var before, last := pieces[..|pieces| - 1], pieces[|pieces| - 1];
      ReadPieces(f, u, pieces)
      == match ReadPieces(f, u, before) case Err(e) => Err(e) case Ok(v) => ReadPiece(f, v, last)
  {
    var before, last := pieces[..|pieces| - 1], pieces[|pieces| - 1];
    assert pieces == before + [last] && [last][1..] == [];
    ReadPiecesConcat(f, u, before, [last]);
  }

  lemma KeysDiffer()
    ensures "sessionid" != "sync" && "sessionid" != "data" && "sync" != "data"
  {
    assert |"sessionid"| != |"sync"| && "sync"[0] != "data"[0];
  }

  /** What a parameter with a key is to the parameters before it. */
  lemma LastOfSnoc(f: Format, pieces: seq<string>, p: Param)
    requires pieces != [] && ParamOf(pieces[|pieces| - 1]) == Some(p)
    ensures forall key: string ::
      LastOf(pieces, key) == if p.key == key then Some(p.value) else LastOf(pieces[..|pieces| - 1], key)
    ensures p.key != "data" ==> forall v6 :: LastData(f, pieces, v6) == LastData(f, pieces[..|pieces| - 1], v6)
  {
  }

  lemma SessionDecides(f: Format, u: Ejfat, pieces: seq<string>, v: Ejfat, p: Param)
    requires pieces != [] && ParamOf(pieces[|pieces| - 1]) == Some(p) && p.key == "sessionid"
    requires Decided(f, u, pieces[..|pieces| - 1], v)
    ensures Decided(f, u, pieces, v.(sessionId := p.value))
  {
    KeysDiffer();
    LastOfSnoc(f, pieces, p);
  }

  lemma SyncDecides(f: Format, u: Ejfat, pieces: seq<string>, v: Ejfat, p: Param)
    requires pieces != [] && ParamOf(pieces[|pieces| - 1]) == Some(p) && p.key == "sync"
    requires Decided(f, u, pieces[..|pieces| - 1], v) && ToIpAndPort(f, p.value).Some?
    ensures Decided(f, u, pieces, v.(sync := ToIpAndPort(f, p.value)))
  {
    KeysDiffer();
    LastOfSnoc(f, pieces, p);
  }

  lemma DataDecides(f: Format, u: Ejfat, pieces: seq<string>, v: Ejfat, p: Param, a: Address, port: u16)
    requires pieces != [] && ParamOf(pieces[|pieces| - 1]) == Some(p) && p.key == "data"
    requires Decided(f, u, pieces[..|pieces| - 1], v) && ToIpAndPort(f, p.value) == Some((a, port))
    ensures Decided(f, u, pieces, v.(dataPort := if port == 0 then 19522 else port,
                                     data4 := if a.V6? then v.data4 else Some(a),
                                     data6 := if a.V6? then Some(a) else v.data6))
  {
    KeysDiffer();
    LastOfSnoc(f, pieces, p);
    assert HasKey(pieces[|pieces| - 1], "data");
  }

  lemma PieceDecides(f: Format, u: Ejfat, pieces: seq<string>, v: Ejfat)
    requires pieces != [] && Decided(f, u, pieces[..|pieces| - 1], v)
    ensures match ReadPiece(f, v, pieces[|pieces| - 1])
      case Ok(x) => Refusal(f, pieces[|pieces| - 1]) == None && Decided(f, u, pieces, x)
      case Err(e) => Refusal(f, pieces[|pieces| - 1]) == Some(e)
  {
    match ParamOf(pieces[|pieces| - 1])
    case None =>
    case Some(p) =>
      if p.key == "sessionid" {
        SessionDecides(f, u, pieces, v, p);
      } else if ToIpAndPort(f, p.value).Some? && p.key == "sync" {
        KeysDiffer();
        SyncDecides(f, u, pieces, v, p);
      } else if ToIpAndPort(f, p.value).Some? && p.key == "data" {
        KeysDiffer();
        var (a, port) := ToIpAndPort(f, p.value).value;
        DataDecides(f, u, pieces, v, p, a, port);
      }
  }

  ghost predicate AllAccepted(f: Format, pieces: seq<string>) {
    forall i :: 0 <= i < |pieces| ==> Refusal(f, pieces[i]) == None
  }

  ghost predicate RefusedAt(f: Format, pieces: seq<string>, e: UriError, i: nat) {
    i < |pieces| && Refusal(f, pieces[i]) == Some(e) && forall j :: 0 <= j < i ==> Refusal(f, pieces[j]) == None
  }

  /** The first parameter that is refused is refused for this. */
  ghost predicate FirstRefusal(f: Format, pieces: seq<string>, e: UriError) {
    exists i: nat :: RefusedAt(f, pieces, e, i)
  }

  lemma AcceptedSnoc(f: Format, before: seq<string>, last: string)
    requires AllAccepted(f, before) && Refusal(f, last) == None
    ensures AllAccepted(f, before + [last])
  {
  }

  lemma StaysRefused(f: Format, pieces: seq<string>, e: UriError)
    requires pieces != [] && FirstRefusal(f, pieces[..|pieces| - 1], e)
    ensures FirstRefusal(f, pieces, e)
  {
    var before := pieces[..|pieces| - 1];
    var i: nat :| RefusedAt(f, before, e, i);
    forall j | 0 <= j <= i ensures before[j] == pieces[j] {}
    assert RefusedAt(f, pieces, e, i);
  }

  lemma RefusedLast(f: Format, before: seq<string>, last: string, e: UriError)
    requires AllAccepted(f, before) && Refusal(f, last) == Some(e)
    ensures FirstRefusal(f, before + [last], e)
  {
    assert RefusedAt(f, before + [last], e, |before|);
  }

  lemma LastDecides(f: Format, u: Ejfat, pieces: seq<string>, v: Ejfat)
    requires pieces != [] && Decided(f, u, pieces[..|pieces| - 1], v) && AllAccepted(f, pieces[..|pieces| - 1])
    ensures match ReadPiece(f, v, pieces[|pieces| - 1])
      case Ok(x) => Decided(f, u, pieces, x) && AllAccepted(f, pieces)
      case Err(e) => FirstRefusal(f, pieces, e)
  {
    var before, last := pieces[..|pieces| - 1], pieces[|pieces| - 1];
    PieceDecides(f, u, pieces, v);
    match ReadPiece(f, v, last)
    case Ok(_) => AcceptedSnoc(f, before, last); assert before + [last] == pieces;
    case Err(e) => RefusedLast(f, before, last, e); assert before + [last] == pieces;
  }

  ghost predicate Answered(f: Format, u: Ejfat, pieces: seq<string>, r: Result<Ejfat, UriError>) {
    match r
    case Ok(v) => Decided(f, u, pieces, v) && AllAccepted(f, pieces)
    case Err(e) => FirstRefusal(f, pieces, e)
  }

  lemma NextAnswers(f: Format, u: Ejfat, pieces: seq<string>, r: Result<Ejfat, UriError>)
    requires pieces != [] && Answered(f, u, pieces[..|pieces| - 1], r)
    ensures Answered(f, u, pieces,
                     match r case Err(e) => Err(e) case Ok(v) => ReadPiece(f, v, pieces[|pieces| - 1]))
  {
    match r
    case Err(e) => StaysRefused(f, pieces, e);
    case Ok(v) => LastDecides(f, u, pieces, v);
  }

  /** WHAT THE QUERY DECIDES. When the query is accepted each field is as its last
      parameter says and no parameter touches another field; when it is refused it is for
      the first parameter that must be refused. */
  lemma {:induction false} QueryDecides(f: Format, u: Ejfat, pieces: seq<string>)
    ensures match ReadPieces(f, u, pieces)
      case Ok(v) => Decided(f, u, pieces, v) && AllAccepted(f, pieces)
      case Err(e) => FirstRefusal(f, pieces, e)
  {
    if pieces == [] {
      assert Answered(f, u, [], ReadPieces(f, u, []));
    } else {
      QueryDecides(f, u, pieces[..|pieces| - 1]);
      ReadPiecesSnoc(f, u, pieces);
      NextAnswers(f, u, pieces, ReadPieces(f, u, pieces[..|pieces| - 1]));
    }
  }

  // ---- data addresses that name a port --------------------------------------------------

  /** A data parameter with an address and a port, or with an address alone. */
  function DataPiece(f: Format, a: Address, port: Option<u16>): string {
    "data=" + (Host(f, a) + if port.Some? then ":" + ToDecimal(port.value) else "")
  }

  lemma DataPieceReads(f: Format, a: Address, port: Option<u16>)
    requires Lawful(f) && (port.Some? ==> port.value >= 1024)
    ensures ParamOf(DataPiece(f, a, port)).Some? && HasKey(DataPiece(f, a, port), "data")
    ensures ToIpAndPort(f, ParamOf(DataPiece(f, a, port)).value.value)
      == Some((a, if port.Some? then port.value else 0))
  {
    var h := Host(f, a);
    var text := h + if port.Some? then ":" + ToDecimal(port.value) else "";
    assert DataPiece(f, a, port) == "data" + ("=" + text);
    KeysArePlain();
    HostIsQueryText(f, a);
    assert QueryText(text);
    PieceReads("data", text);
    if port.Some? {
      assert text == h + ":" + ToDecimal(port.value);
      SocketReads(f, a, port.value);
    } else {
      assert text == h;
      BareAddressReads(f, a);
    }
  }

  lemma HostIsQueryText(f: Format, a: Address)
    requires Lawful(f)
    ensures QueryText(Host(f, a))
  {
    if a.V6? { LiteralIsQueryText(f.show(a)); }
  }

  lemma {:induction false} LastOfTail(pieces: seq<string>, i: nat, key: string)
    requires i < |pieces| && HasKey(pieces[i], key) && forall j :: i < j < |pieces| ==> !HasKey(pieces[j], key)
    ensures LastOf(pieces, key) == Some(ParamOf(pieces[i]).value.value)
  {
    if i < |pieces| - 1 { LastOfTail(pieces[..|pieces| - 1], i, key); }
  }

  lemma {:induction false} LastDataTail(f: Format, pieces: seq<string>, i: nat, a: Address)
    requires i < |pieces| && HasKey(pieces[i], "data")
    requires ToIpAndPort(f, ParamOf(pieces[i]).value.value).Some?
    requires ToIpAndPort(f, ParamOf(pieces[i]).value.value).value.0 == a
    requires forall j :: i < j < |pieces| ==> !HasKey(pieces[j], "data")
    ensures LastData(f, pieces, a.V6?) == Some(a)
  {
    if i < |pieces| - 1 { LastDataTail(f, pieces[..|pieces| - 1], i, a); }
  }

  /** A DATA ADDRESS WITH A PORT. The last data parameter of an accepted query leaves its
      address in the field of its family, and its port, or 19522 without one. */
  lemma DataPortIsRead(f: Format, u: Ejfat, pieces: seq<string>, i: nat, a: Address, port: Option<u16>)
    requires Lawful(f) && ReadPieces(f, u, pieces).Ok? && i < |pieces| && (port.Some? ==> port.value >= 1024)
    requires pieces[i] == DataPiece(f, a, port) && forall j :: i < j < |pieces| ==> !HasKey(pieces[j], "data")
    ensures var v := ReadPieces(f, u, pieces).value;
      && v.dataPort == (if port.Some? then port.value else 19522)
      && (if a.V6? then v.data6 == Some(a) else v.data4 == Some(a))
  {
    DataPieceReads(f, a, port);
    QueryDecides(f, u, pieces);
    LastOfTail(pieces, i, "data");
    LastDataTail(f, pieces, i, a);
  }

  // ---- the whole URI ----------------------------------------------------------------

  /** The LB id is what follows the last slash of the path. */
  ghost predicate LastSegment(path: string, lbId: string) {
    Avoids(lbId, {'/'}) && exists front :: path == front + lbId && (front == "" || front[|front| - 1] == '/')
  }

  lemma SegmentIs(front: string, lbId: string)
    requires Avoids(lbId, {'/'}) && (front == "" || front[|front| - 1] == '/')
    ensures LastSegment(front + lbId, lbId)
  {
  }

  lemma SegmentFrom(path: string, n: nat)
    requires n <= |path| && (n > 0 ==> path[n - 1] == '/') && Avoids(path[n..], {'/'})
    ensures LastSegment(path, path[n..])
  {
    assert path == path[..n] + path[n..];
    SegmentIs(path[..n], path[n..]);
  }

  lemma AvoidsFrom(path: string, n: nat)
    requires n <= |path| && forall j :: n <= j < |path| ==> path[j] !in {'/'}
    ensures Avoids(path[n..], {'/'})
  {
  }

  lemma SegmentAfterSlash(path: string)
    ensures LastSegment(path, path[FindLastOf(path, {'/'}) + 1..])
  {
    var n: nat := FindLastOf(path, {'/'}) + 1;
    AvoidsFrom(path, n);
    SegmentFrom(path, n);
  }

  /** What precedes the query decides the other fields. */
  ghost predicate FrontDecided(w: World, g: Generic, hp: HostPort, tt: TokenType, preferV6: bool, v: Ejfat) {
    && (g.scheme == "ejfat" || g.scheme == "ejfats") && v.useTls == (g.scheme == "ejfats")
    && |v.tokens| == 4 && Decode(hp.userinfo, false) == Some(v.tokens[Index(tt)])
    && (forall i :: 0 <= i < 4 && i != Index(tt) ==> v.tokens[i] == "")
    && Decode(hp.host, false).Some? && ToPort(hp.port) == Some(v.cpPort)
    && ControlPlaneIs(w, Decode(hp.host, false).value, preferV6, v.cpHost, v.cpAddr)
    && Decode(g.path, false).Some? && LastSegment(Decode(g.path, false).value, v.lbId) && v.lbName == ""
  }

  /** An address stands for itself; a name is kept, beside the first address of the
      preferred family that it resolves to. */
  ghost predicate ControlPlaneIs(w: World, host: string, preferV6: bool, cpHost: string, cpAddr: Address) {
    if ToIp(w.format, host).Some? then cpHost == "" && ToIp(w.format, host) == Some(cpAddr)
    else cpHost == host && w.resolve(host).Some? && FirstOfFamily(w.resolve(host).value, preferV6, cpAddr)
  }

  ghost predicate FirstOfFamily(l: seq<Address>, v6: bool, a: Address) {
    exists i :: 0 <= i < |l| && l[i] == a && a.V6? == v6 && forall j :: 0 <= j < i ==> l[j].V6? != v6
  }

  lemma {:induction false} PreferredIsFirst(l: seq<Address>, v6: bool)
    ensures match Preferred(l, v6)
      case Some(a) => FirstOfFamily(l, v6, a)
      case None => forall i :: 0 <= i < |l| ==> l[i].V6? != v6
  {
    if l != [] && l[0].V6? != v6 {
      PreferredIsFirst(l[1..], v6);
      if Preferred(l[1..], v6).Some? {
        var a := Preferred(l[1..], v6).value;
        var i :| 0 <= i < |l[1..]| && l[1..][i] == a && a.V6? == v6
          && forall j :: 0 <= j < i ==> l[1..][j].V6? != v6;
        assert l[i + 1] == a && forall j :: 0 <= j < i + 1 ==> l[j].V6? != v6;
      }
    }
  }

  lemma ControlPlaneDecides(w: World, hp: HostPort, host: string, preferV6: bool)
    ensures match ControlPlane(w, hp, host, preferV6)
      case Ok((cpHost, cpAddr, cpPort)) =>
        ToPort(hp.port) == Some(cpPort) && ControlPlaneIs(w, host, preferV6, cpHost, cpAddr)
      case Err(BadControlPlane) => ToPort(hp.port) == None
      case Err(UnresolvedHost) => ToIp(w.format, host) == None && w.resolve(host) == None
      case Err(NoAddress) => ToIp(w.format, host) == None && w.resolve(host).Some?
        && forall i :: 0 <= i < |w.resolve(host).value| ==> w.resolve(host).value[i].V6? != preferV6
      case Err(_) => false
  {
    if w.resolve(host).Some? { PreferredIsFirst(w.resolve(host).value, preferV6); }
  }

  /** Each type of token has its own place. */
  lemma PlacesDiffer(a: TokenType, b: TokenType)
    ensures Index(a) == Index(b) <==> a == b
  {
  }

  lemma StartDecides(tls: bool, tt: TokenType, userinfo: string, cp: (string, Address, u16), path: string)
    ensures var v := Start(tls, tt, userinfo, cp, path);
      && v.useTls == tls && |v.tokens| == 4 && v.tokens[Index(tt)] == userinfo
      && (forall i :: 0 <= i < 4 && i != Index(tt) ==> v.tokens[i] == "")
      && v.cpHost == cp.0 && v.cpAddr == cp.1 && v.cpPort == cp.2
      && LastSegment(path, v.lbId) && v.lbName == "" && Unset(v)
  {
    SegmentAfterSlash(path);
  }

  lemma FrontDecides(w: World, g: Generic, hp: HostPort, tt: TokenType, preferV6: bool)
    requires Front(w, g, hp, tt, preferV6).Ok?
    ensures FrontDecided(w, g, hp, tt, preferV6, Front(w, g, hp, tt, preferV6).value)
    ensures Unset(Front(w, g, hp, tt, preferV6).value)
  {
    var host := Decode(hp.host, false).value;
    ControlPlaneDecides(w, hp, host, preferV6);
    StartDecides(g.scheme == "ejfats", tt, Decode(hp.userinfo, false).value,
                 ControlPlane(w, hp, host, preferV6).value, Decode(g.path, false).value);
  }

  /** Nothing of what the query is about is known. */
  predicate Unset(u: Ejfat) {
    u.sync == None && u.data4 == None && u.data6 == None && u.dataPort == 0 && u.sessionId == ""
  }

  /** WHAT AN ACCEPTED URI DECIDES: the parts before the query and the query parameters
      each decide their own fields. */
  lemma ParseDecides(w: World, s: string, tt: TokenType, preferV6: bool)
    returns (g: Generic, hp: HostPort, u: Ejfat)
    requires Parse(w, s, tt, preferV6).Ok?
    ensures Divide(s) == Some(g) && DivideAuthority(w.format, g.authority) == Some(hp) && Unset(u)
    ensures FrontDecided(w, g, hp, tt, preferV6, Parse(w, s, tt, preferV6).value)
    ensures Decided(w.format, u, Pieces(g), Parse(w, s, tt, preferV6).value) && AllAccepted(w.format, Pieces(g))
  {
    g := Divide(s).value;
    hp := DivideAuthority(w.format, g.authority).value;
    u := Front(w, g, hp, tt, preferV6).value;
    FrontDecides(w, g, hp, tt, preferV6);
    QueryDecides(w.format, u, Pieces(g));
  }

  /** A DATA ADDRESS WITH A PORT, in the text of an accepted URI: the last data parameter
      leaves its address in the field of its family and its port, or 19522 without one,
      whatever the other parts and parameters are. */
  lemma ParseReadsDataPort(w: World, g: Generic, fragment: Option<string>, pieces: seq<string>, i: nat,
                           a: Address, port: Option<u16>, tt: TokenType, preferV6: bool)
    requires UriRoundTrip.Lawful(w.format) && (port.Some? ==> port.value >= 1024)
    requires WellFormed(g) && (fragment.Some? ==> FragmentChars(fragment.value))
    requires i < |pieces| && g.query == Some(Join(pieces)) && forall j :: 0 <= j < |pieces| ==> Avoids(pieces[j], {'&'})
    requires pieces[i] == DataPiece(w.format, a, port) && forall j :: i < j < |pieces| ==> !HasKey(pieces[j], "data")
    requires Parse(w, Written(g, fragment), tt, preferV6).Ok?
    ensures var v := Parse(w, Written(g, fragment), tt, preferV6).value;
      && v.dataPort == (if port.Some? then port.value else 19522)
      && (if a.V6? then v.data6 == Some(a) else v.data4 == Some(a))
  {
    WrittenReads(g, fragment);
    SplitJoin(pieces);
    var hp := DivideAuthority(w.format, g.authority).value;
    DataPortIsRead(w.format, Front(w, g, hp, tt, preferV6).value, pieces, i, a, port);
  }

  // ---- what is refused -------------------------------------------------------------

  /** Percent signs out of place, anywhere. */
  ghost predicate Undecodable(g: Generic, hp: HostPort) {
    || Decode(hp.userinfo, false) == None || Decode(hp.host, false) == None || Decode(g.path, false) == None
    || exists i :: 0 <= i < |Pieces(g)| && ParamOf(Pieces(g)[i]) == None
  }

  /** Why the parts before the query are refused. */
  ghost predicate FrontRefused(w: World, g: Generic, hp: HostPort, preferV6: bool, e: UriError) {
    if Undecodable(g, hp) then e == BadUri
    else if g.scheme != "ejfat" && g.scheme != "ejfats" then e == BadScheme
    else if ToPort(hp.port) == None then e == BadControlPlane
    else
      var host := Decode(hp.host, false).value;
      && ToIp(w.format, host) == None
      && match w.resolve(host)
         case None => e == UnresolvedHost
         case Some(l) => e == NoAddress && forall i :: 0 <= i < |l| ==> l[i].V6? != preferV6
  }

  lemma FrontAnswers(w: World, g: Generic, hp: HostPort, tt: TokenType, preferV6: bool)
    ensures match Front(w, g, hp, tt, preferV6)
      case Ok(u) => FrontDecided(w, g, hp, tt, preferV6, u) && !Undecodable(g, hp)
      case Err(e) => FrontRefused(w, g, hp, preferV6, e)
  {
    if Front(w, g, hp, tt, preferV6).Ok? {
      FrontDecides(w, g, hp, tt, preferV6);
    } else if Decode(hp.host, false).Some? {
      ControlPlaneDecides(w, hp, Decode(hp.host, false).value, preferV6);
    }
  }

  /** WHAT IS REFUSED, AND WHY: a text that is no URI; percent signs, scheme, port or host
      before the query, in this order; and then the first parameter that is refused. */
  lemma ParseRefuses(w: World, s: string, tt: TokenType, preferV6: bool, e: UriError)
    requires Parse(w, s, tt, preferV6) == Err(e)
    ensures match Divide(s)
      case None => e == BadUri
      case Some(g) =>
        match DivideAuthority(w.format, g.authority)
        case None => e == BadUri
        case Some(hp) =>
          if Front(w, g, hp, tt, preferV6).Err? then FrontRefused(w, g, hp, preferV6, e)
          else FirstRefusal(w.format, Pieces(g), e)
  {
    match Divide(s)
    case None =>
    case Some(g) =>
      match DivideAuthority(w.format, g.authority)
      case None =>
      case Some(hp) =>
        FrontAnswers(w, g, hp, tt, preferV6);
        if Front(w, g, hp, tt, preferV6).Ok? {
          QueryDecides(w.format, Front(w, g, hp, tt, preferV6).value, Pieces(g));
        }
  }

  // ---- what is printed ---------------------------------------------------------------

  /** The token, if there is one, the name or the address, and the port. */
  function AuthorityText(f: Format, u: Ejfat, token: string): string {
    (if token == "" then "" else token + "@")
    + ((if u.cpHost != "" then u.cpHost
        else if u.cpAddr.V6? then "[" + f.show(u.cpAddr) + "]" else f.show(u.cpAddr)) + (":" + ToDecimal(u.cpPort)))
  }

  /** The parameters that are printed. */
  function ParamTexts(f: Format, u: Ejfat): seq<string> {
    (if u.sync.None? then [] else ["sync=" + Host(f, u.sync.value.0) + ":" + ToDecimal(u.sync.value.1)])
    + (if u.data4.None? then [] else ["data=" + f.show(u.data4.value)])
    + (if u.data6.None? then [] else ["data=[" + f.show(u.data6.value) + "]"])
    + (if u.sessionId == "" then [] else ["sessionid=" + u.sessionId])
  }

  /** What follows the path: parameters joined by ampersands behind a question mark, if
      there is an address; else a session id behind an ampersand. */
  function TailText(f: Format, u: Ejfat): string {
    if u.sync.Some? || u.data4.Some? || u.data6.Some? then "?" + Join(ParamTexts(f, u))
    else if u.sessionId == "" then "" else "&sessionid=" + u.sessionId
  }

  /** WHAT IS PRINTED, letter by letter. */
  lemma PrintIs(f: Format, u: Ejfat, tt: TokenType)
    requires |u.tokens| == 4
    ensures Print(f, u, tt)
      == (if u.useTls then "ejfats" else "ejfat") + "://"
         + (AuthorityText(f, u, u.tokens[Index(tt)])
            + ((if u.lbId == "" then "/" else "/lb/" + u.lbId) + TailText(f, u)))
  {
    PathPrints(u);
    TailPrints(f, u);
  }

  lemma PathPrints(u: Ejfat)
    ensures Path(u) == if u.lbId == "" then "/" else "/lb/" + u.lbId
  {
    assert u.lbId != "" ==> "/" + ("lb/" + u.lbId) == "/lb/" + u.lbId;
  }

  lemma TailPrints(f: Format, u: Ejfat)
    ensures PrintQuery(f, u) == TailText(f, u)
  {
    PiecesPrint(f, u);
    if HasAddress(u) { QueryPrints(f, u); } else { StrayPrints(f, u); }
  }

  lemma PiecesPrint(f: Format, u: Ejfat)
    ensures AddressPieces(f, u) + Present(SessionText(u)) == ParamTexts(f, u)
  {
    if u.sync.Some? {
      var h, d := Host(f, u.sync.value.0), ToDecimal(u.sync.value.1);
      assert "sync=" + (h + ":" + d) == "sync=" + h + ":" + d;
    }
    if u.data6.Some? {
      var a := f.show(u.data6.value);
      assert "data=" + ("[" + a + "]") == "data=[" + a + "]";
    }
  }
}
