/** EjfatURI: the printer and the parser of
    ejfat[s]://[token@]host:port/[lb/id][?sync=..&data=..&sessionid=..]. */
module Uri {
  import opened Types
  import opened Text

  const DATAPLANE_PORT: u16 := 19522

  datatype Address = V4(bits: nat) | V6(bits: nat)

  /** How addresses are written and read. */
  datatype Format = Format(show: Address -> string, read: string -> Option<Address>)

  /** What is known outside the URI: the text form of addresses, and the resolver. */
  datatype World = World(format: Format, resolve: string -> Option<seq<Address>>)

  datatype TokenType = All | Admin | Instance | Session

  datatype Ejfat = Ejfat(
    useTls: bool, tokens: seq<string>, cpHost: string, cpAddr: Address, cpPort: u16, lbId: string, lbName: string,
    sync: Option<(Address, u16)>, data4: Option<Address>, data6: Option<Address>, dataPort: u16, sessionId: string)

  datatype UriError = BadUri | BadScheme | BadControlPlane | UnresolvedHost | NoAddress | UnknownParam | BadAddress

  function Index(tt: TokenType): (i: nat)
    ensures i < 4
  {
    match tt case All => 0 case Admin => 1 case Instance => 2 case Session => 3
  }

  // ---- printing -------------------------------------------------------------

  function Host(f: Format, a: Address): string {
    if a.V6? then "[" + f.show(a) + "]" else f.show(a)
  }

  function HostName(f: Format, u: Ejfat): string {
    if u.cpHost == "" then Host(f, u.cpAddr) else u.cpHost
  }

  function Authority(f: Format, u: Ejfat, token: string): string {
    (if token != "" then token + "@" else "") + (HostName(f, u) + (":" + ToDecimal(u.cpPort)))
  }

  function Scheme(u: Ejfat): string {
    if u.useTls then "ejfats" else "ejfat"
  }

  function Path(u: Ejfat): string {
    "/" + if u.lbId != "" then "lb/" + u.lbId else ""
  }

  predicate HasAddress(u: Ejfat) {
    u.sync.Some? || u.data4.Some? || u.data6.Some?
  }

  function SyncText(f: Format, u: Ejfat): string {
    if u.sync.Some? then "sync=" + (Host(f, u.sync.value.0) + ":" + ToDecimal(u.sync.value.1)) else ""
  }

  function Data4Text(f: Format, u: Ejfat): string {
    if u.data4.Some? then "data=" + f.show(u.data4.value) else ""
  }

  function Data6Text(f: Format, u: Ejfat): string {
    if u.data6.Some? then "data=" + ("[" + f.show(u.data6.value) + "]") else ""
  }

  function PrintAddresses(f: Format, u: Ejfat): string {
    (if HasAddress(u) then "?" else "")
    + (SyncText(f, u)
       + (if u.sync.Some? && (u.data4.Some? || u.data6.Some?) then "&" else "")
       + (if u.data4.Some? then Data4Text(f, u) + (if u.data6.Some? then "&" else "") else "")
       + Data6Text(f, u))
  }

  function PrintQuery(f: Format, u: Ejfat): string {
    PrintAddresses(f, u) + if u.sessionId != "" then "&sessionid=" + u.sessionId else ""
  }

  /** to_string with the token of one type. */
  function Print(f: Format, u: Ejfat, tt: TokenType): string
    requires |u.tokens| == 4
  {
    Scheme(u) + "://" + (Authority(f, u, u.tokens[Index(tt)]) + (Path(u) + PrintQuery(f, u)))
  }

  // ---- RFC 3986 ---------------------------------------------------------------

  predicate SchemeText(s: string) {
    s != "" && Alpha(s[0]) && forall i :: 0 <= i < |s| ==> Alpha(s[i]) || Digit(s[i]) || s[i] in {'+', '-', '.'}
  }

  predicate UserChar(c: char) {
    Unreserved(c) || SubDelim(c) || c == ':' || c == '%'
  }

  predicate NameChar(c: char) {
    Unreserved(c) || SubDelim(c) || c == '%'
  }

  predicate PathChar(c: char) {
    Unreserved(c) || SubDelim(c) || c == ':' || c == '@' || c == '%' || c == '/'
  }

  /** The parser in use also lets brackets stand in queries. */
  predicate QueryChar(c: char) {
    PathChar(c) || c == '?' || c == '[' || c == ']'
  }

  predicate Every(s: string, p: char -> bool) {
    forall i :: 0 <= i < |s| ==> p(s[i])
  }

  datatype Generic = Generic(scheme: string, authority: string, path: string, query: Option<string>)

  /** Sections 3.4 and 3.5: the query, if there is one; the fragment is only checked. */
  function DivideTail(tail: string): Option<Option<string>> {
    var h := FindFirstOf(tail, {'#'});
    if h < |tail| && !Every(tail[h + 1..], c => PathChar(c) || c == '?') then None
    else if h == 0 then Some(None)
    else if tail[0] == '?' && Every(tail[1..h], c => QueryChar(c)) then Some(Some(tail[1..h]))
    else None
  }

  /** Sections 3.2 and 3.3: authority and path. */
  function DivideHier(scheme: string, hier: string): Option<Generic> {
    var j := FindFirstOf(hier, {'/', '?', '#'});
    var k := FindFirstOf(hier[j..], {'?', '#'});
    match DivideTail(hier[j..][k..])
    case None => None
    case Some(query) =>
      if Every(hier[j..][..k], c => PathChar(c)) then Some(Generic(scheme, hier[..j], hier[j..][..k], query)) else None
  }

  /** Section 3. A URI without an authority has no host and port, which the caller
      refuses too. */
  function Divide(s: string): Option<Generic> {
    var i := FindFirstOf(s, {':', '/', '?', '#'});
    if i < |s| && SchemeText(s[..i]) && "://" <= s[i..] then DivideHier(s[..i], s[i + 3..]) else None
  }

  datatype HostPort = HostPort(userinfo: string, host: string, port: string)

  /** Section 3.2. */
  function DivideAuthority(f: Format, a: string): Option<HostPort> {
    var i := FindFirstOf(a, {'@'});
    if i == |a| then DivideHost(f, "", a)
    else if Every(a[..i], c => UserChar(c)) then DivideHost(f, a[..i], a[i + 1..])
    else None
  }

  /** Section 3.2.2. An IP literal must hold an IPv6 address. */
  function DivideHost(f: Format, userinfo: string, hp: string): Option<HostPort> {
    if hp != "" && hp[0] == '[' then
      var j := FindFirstOf(hp, {']'});
      if j < |hp| && f.read(hp[1..j]).Some? && f.read(hp[1..j]).value.V6? then
        PortAfter(userinfo, hp[..j + 1], hp[j + 1..])
      else None
    else
      var j := FindFirstOf(hp, {':'});
      if Every(hp[..j], c => NameChar(c)) then PortAfter(userinfo, hp[..j], hp[j..]) else None
  }

  function PortAfter(userinfo: string, host: string, rest: string): Option<HostPort> {
    if rest == "" then Some(HostPort(userinfo, host, ""))
    else if rest[0] == ':' && Every(rest[1..], c => Digit(c)) then Some(HostPort(userinfo, host, rest[1..]))
    else None
  }

  datatype Param = Param(key: string, value: string)

  function ParamOf(piece: string): Option<Param> {
    var i := FindFirstOf(piece, {'='});
    match (Decode(piece[..i], true), Decode(if i < |piece| then piece[i + 1..] else "", true))
    case (Some(k), Some(v)) => Some(Param(k, v))
    case _ => None
  }

  // ---- conversions --------------------------------------------------------------

  /** string_to_ip: brackets are dropped without being looked at twice. */
  function ToIp(f: Format, s: string): Option<Address> {
    if s != "" && s[0] == '[' then f.read(if |s| >= 2 then s[1..|s| - 1] else "") else f.read(s)
  }

  /** string_to_port: the number is cut to 16 bits before its range is checked. */
  function ToPort(s: string): Option<u16> {
    match Stoi(s)
    case None => None
    case Some(v) => var port := v % 0x1_0000; if port < 1024 then None else Some(port)
  }

  /** string_tuple_to_ip_and_port. */
  function ToIpAndPort(f: Format, t: string): Option<(Address, u16)> {
    var pos := FindLastOf(t, {']', ':'});
    if pos == -1 || t[pos] == ']' then
      match ToIp(f, t)
      case None => None
      case Some(a) => Some((a, 0))
    else
      match (ToIp(f, t[..pos]), ToPort(t[pos + 1..]))
      case (Some(a), Some(p)) => Some((a, p))
      case _ => None
  }

  /** The first resolved address of the preferred family. */
  function Preferred(l: seq<Address>, preferV6: bool): Option<Address> {
    if l == [] then None else if l[0].V6? == preferV6 then Some(l[0]) else Preferred(l[1..], preferV6)
  }

  function ControlPlane(w: World, hp: HostPort, host: string, preferV6: bool):
    Result<(string, Address, u16), UriError>
  {
    match (ToIp(w.format, host), ToPort(hp.port))
    case (Some(a), Some(p)) => Ok(("", a, p))
    case (None, Some(p)) =>
      (match w.resolve(host)
       case None => Err(UnresolvedHost)
       case Some(l) =>
         match Preferred(l, preferV6)
         case None => Err(NoAddress)
         case Some(a) => Ok((host, a, p)))
    case _ => Err(BadControlPlane)
  }

  /** One query parameter. */
  function ReadParam(f: Format, u: Ejfat, p: Param): Result<Ejfat, UriError> {
    if p.key == "sessionid" then Ok(u.(sessionId := p.value))
    else
      match ToIpAndPort(f, p.value)
      case None => Err(BadAddress)
      case Some((a, port)) =>
        if p.key == "sync" then Ok(u.(sync := Some((a, port))))
        else if p.key == "data" then
          var v := u.(dataPort := if port == 0 then DATAPLANE_PORT else port);
          Ok(if a.V4? then v.(data4 := Some(a)) else v.(data6 := Some(a)))
        else Err(UnknownParam)
  }

  function ReadPiece(f: Format, u: Ejfat, piece: string): Result<Ejfat, UriError> {
    match ParamOf(piece)
    case None => Err(BadUri)
    case Some(p) => ReadParam(f, u, p)
  }

  /** The query, parameter by parameter. */
  function ReadPieces(f: Format, u: Ejfat, pieces: seq<string>): Result<Ejfat, UriError>
    decreases |pieces|
  {
    if pieces == [] then Ok(u)
    else
      match ReadPiece(f, u, pieces[0])
      case Err(e) => Err(e)
      case Ok(v) => ReadPieces(f, v, pieces[1..])
  }

  /** What the path and the authority say; nothing is known of the rest yet. */
  function Start(tls: bool, tt: TokenType, userinfo: string, cp: (string, Address, u16), path: string): Ejfat {
    Ejfat(tls, ["", "", "", ""][Index(tt) := userinfo], cp.0, cp.1, cp.2, path[FindLastOf(path, {'/'}) + 1..], "",
          None, None, None, 0, "")
  }

  predicate Decodable(hp: HostPort, path: string, pieces: seq<string>) {
    && Decode(hp.userinfo, false).Some? && Decode(hp.host, false).Some? && Decode(path, false).Some?
    && forall i :: 0 <= i < |pieces| ==> ParamOf(pieces[i]).Some?
  }

  function Pieces(g: Generic): seq<string> {
    if g.query.Some? then Split(g.query.value, '&') else []
  }

  /** The constructor of EjfatURI up to the query. */
  function Front(w: World, g: Generic, hp: HostPort, tt: TokenType, preferV6: bool): Result<Ejfat, UriError> {
    if !Decodable(hp, g.path, Pieces(g)) then Err(BadUri)
    else if g.scheme != "ejfat" && g.scheme != "ejfats" then Err(BadScheme)
    else
      match ControlPlane(w, hp, Decode(hp.host, false).value, preferV6)
      case Err(e) => Err(e)
      case Ok(cp) =>
        Ok(Start(g.scheme == "ejfats", tt, Decode(hp.userinfo, false).value, cp, Decode(g.path, false).value))
  }

  /** The constructor of EjfatURI, once the URI is taken apart. */
  function Build(w: World, g: Generic, hp: HostPort, tt: TokenType, preferV6: bool): Result<Ejfat, UriError> {
    match Front(w, g, hp, tt, preferV6)
    case Err(e) => Err(e)
    case Ok(u) => ReadPieces(w.format, u, Pieces(g))
  }

  function Parse(w: World, s: string, tt: TokenType, preferV6: bool): Result<Ejfat, UriError> {
    match Divide(s)
    case None => Err(BadUri)
    case Some(g) =>
      match DivideAuthority(w.format, g.authority)
      case None => Err(BadUri)
      case Some(hp) => Build(w, g, hp, tt, preferV6)
  }

  // ---- the object -------------------------------------------------------------------

  /** EjfatURI with its fields, filled in by the constructor as it reads the URI. */
  class EjfatURI {
    var useTls: bool
    var tokensByType: seq<string>
    var cpHost: string
    var cpAddr: Address
    var cpPort: u16
    var lbId: string
    var lbName: string
    var sync: Option<(Address, u16)>
    var dataAddrv4: Option<Address>
    var dataAddrv6: Option<Address>
    var dataPort: u16
    var sessionId: string

    function View(): Ejfat
      reads this
    {
      Ejfat(useTls, tokensByType, cpHost, cpAddr, cpPort, lbId, lbName, sync,
            dataAddrv4, dataAddrv6, dataPort, sessionId)
    }

    constructor ()
      ensures tokensByType == ["", "", "", ""] && lbName == "" && sessionId == ""
      ensures sync == None && dataAddrv4 == None && dataAddrv6 == None && dataPort == 0
    {
      useTls, tokensByType, cpHost, cpAddr, cpPort, lbId, lbName := false, ["", "", "", ""], "", V4(0), 0, "", "";
      sync, dataAddrv4, dataAddrv6, dataPort, sessionId := None, None, None, 0, "";
    }

    /** One parameter of the query; the result is the error, if there is one. */
    method Read(f: Format, piece: string) returns (err: Option<UriError>)
      modifies this
      ensures match ReadPiece(f, old(View()), piece)
        case Ok(v) => err == None && View() == v
        case Err(e) => err == Some(e)
    {
      var param := ParamOf(piece);
      if param == None { return Some(BadUri); }
      if param.value.key == "sessionid" {
        sessionId := param.value.value;
        return None;
      }
      var r := ToIpAndPort(f, param.value.value);
      if r == None { return Some(BadAddress); }
      var (a, port) := r.value;
      if param.value.key == "sync" {
        sync := Some((a, port));
      } else if param.value.key == "data" {
        if a.V4? { dataAddrv4 := Some(a); } else { dataAddrv6 := Some(a); }
        dataPort := if port == 0 then DATAPLANE_PORT else port;
      } else {
        return Some(UnknownParam);
      }
      return None;
    }

    /** Parse a URI into a fresh object. */
    method FromString(w: World, uri: string, tt: TokenType, preferV6: bool) returns (err: Option<UriError>)
      requires tokensByType == ["", "", "", ""] && lbName == "" && sessionId == ""
      requires sync == None && dataAddrv4 == None && dataAddrv6 == None && dataPort == 0
      modifies this
      ensures match Parse(w, uri, tt, preferV6)
        case Ok(v) => err == None && View() == v
        case Err(e) => err == Some(e)
    {
      var g := Divide(uri);
      if g == None { return Some(BadUri); }
      var hp := DivideAuthority(w.format, g.value.authority);
      if hp == None { return Some(BadUri); }
      err := Fill(w, g.value, hp.value, tt, preferV6);
      if err == None { err := ReadAll(w.format, Pieces(g.value)); }
    }

    method Fill(w: World, g: Generic, hp: HostPort, tt: TokenType, preferV6: bool) returns (err: Option<UriError>)
      requires tokensByType == ["", "", "", ""] && lbName == "" && sessionId == ""
      requires sync == None && dataAddrv4 == None && dataAddrv6 == None && dataPort == 0
      modifies this
      ensures match Front(w, g, hp, tt, preferV6)
        case Ok(v) => err == None && View() == v
        case Err(e) => err == Some(e)
    {
      if !Decodable(hp, g.path, Pieces(g)) { return Some(BadUri); }
      if g.scheme != "ejfat" && g.scheme != "ejfats" { return Some(BadScheme); }
      var cp := ControlPlane(w, hp, Decode(hp.host, false).value, preferV6);
      if cp.Err? { return Some(cp.error); }
      FillFrom(g.scheme == "ejfats", tt, Decode(hp.userinfo, false).value, cp.value, Decode(g.path, false).value);
      return None;
    }

    method FillFrom(tls: bool, tt: TokenType, userinfo: string, cp: (string, Address, u16), path: string)
      requires tokensByType == ["", "", "", ""] && lbName == "" && sessionId == ""
      requires sync == None && dataAddrv4 == None && dataAddrv6 == None && dataPort == 0
      modifies this
      ensures View() == Start(tls, tt, userinfo, cp, path)
    {
      useTls := tls;
      if userinfo != "" { tokensByType := tokensByType[Index(tt) := userinfo]; }
      cpHost, cpAddr, cpPort := cp.0, cp.1, cp.2;
      lbId := path[FindLastOf(path, {'/'}) + 1..];
    }

    method ReadAll(f: Format, pieces: seq<string>) returns (err: Option<UriError>)
      modifies this
      ensures match ReadPieces(f, old(View()), pieces)
        case Ok(v) => err == None && View() == v
        case Err(e) => err == Some(e)
    {
      for i := 0 to |pieces|
        invariant ReadPieces(f, old(View()), pieces) == ReadPieces(f, View(), pieces[i..])
      {
        assert pieces[i..][0] == pieces[i] && pieces[i..][1..] == pieces[i + 1..];
        err := Read(f, pieces[i]);
        if err.Some? { return; }
      }
      return None;
    }
  }
}
