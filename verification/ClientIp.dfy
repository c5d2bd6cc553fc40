/** The trusted-proxy scan (httpx/ip.go). Address and prefix parsing are parameters: `Net`
    holds the library functions the resolver calls. */
module ClientIps {
  import opened Results
  import opened Runes
  import opened Ordering

  /** netip and net: parsing and printing an address, splitting host and port, unmapping a
      4-in-6 address and dropping its zone, parsing a prefix, the one-address prefix, and
      prefix membership. */
  datatype Net<!A, !P> = Net(
    parseAddr: string -> Result<A>,
    splitHostPort: string -> Result<string>,
    plain: A -> A,
    show: A -> string,
    parsePrefix: string -> Result<P>,
    single: A -> P,
    contains: (P, A) -> bool)

  /** strings.TrimSpace. */
  function TrimLeft(s: string): string {
    if s != "" && IsSpace(s[0]) then TrimLeft(s[1..]) else s
  }

  function TrimRight(s: string): string {
    if s != "" && IsSpace(s[|s| - 1]) then TrimRight(s[..|s| - 1]) else s
  }

  function TrimSpace(s: string): string {
    TrimRight(TrimLeft(s))
  }

  /** strings.Split on ','. */
  function Split(s: string): (r: seq<string>)
    ensures r != []
  {
    if s == "" then [""]
    else
      var rest := Split(s[1..]);
      if s[0] == ',' then [""] + rest else [[s[0]] + rest[0]] + rest[1..]
  }

  lemma {:induction false} TrimLeftIs(s: string)
    ensures exists g: string :: IsSpaces(g) && s == g + TrimLeft(s)
    ensures TrimLeft(s) != "" ==> !IsSpace(TrimLeft(s)[0])
  {
    if s != "" && IsSpace(s[0]) {
      TrimLeftIs(s[1..]);
      var g: string :| IsSpaces(g) && s[1..] == g + TrimLeft(s[1..]);
      assert IsSpaces([s[0]] + g) && s == ([s[0]] + g) + TrimLeft(s);
    } else {
      assert IsSpaces("") && s == "" + TrimLeft(s);
    }
  }

  lemma {:induction false} TrimRightIs(s: string)
    ensures exists g: string :: IsSpaces(g) && s == TrimRight(s) + g
    ensures TrimRight(s) != "" ==> TrimRight(s)[0] == s[0] && !IsSpace(TrimRight(s)[|TrimRight(s)| - 1])
  {
    hide IsSpace, IsSpaces;
    NoSpaces();
    if s != "" && IsSpace(s[|s| - 1]) {
      var init, last := s[..|s| - 1], s[|s| - 1];
      TrimRightIs(init);
      var g: string :| IsSpaces(g) && init == TrimRight(init) + g;
      OneSpaceMore(g, last);
      assert s == init + [last] && TrimRight(s) == TrimRight(init);
      assert s == TrimRight(s) + (g + [last]);
    } else {
      assert TrimRight(s) == s && s == s + "";
    }
  }

  lemma NoSpaces()
    ensures IsSpaces("")
  {
  }

  lemma OneSpaceMore(g: string, r: char)
    requires IsSpaces(g) && IsSpace(r)
    ensures IsSpaces(g + [r])
  {
    hide IsSpace;
  }

  /** Trimming takes the spaces off both ends and nothing else. */
  lemma TrimSpaceIs(s: string)
    ensures exists g: string, h: string :: IsSpaces(g) && IsSpaces(h) && s == g + TrimSpace(s) + h
    ensures var t := TrimSpace(s); t != "" ==> !IsSpace(t[0]) && !IsSpace(t[|t| - 1])
  {
    hide IsSpace, IsSpaces;
    TrimLeftIs(s);
    TrimRightIs(TrimLeft(s));
    var g: string :| IsSpaces(g) && s == g + TrimLeft(s);
    var h: string :| IsSpaces(h) && TrimLeft(s) == TrimRight(TrimLeft(s)) + h;
    assert s == g + TrimSpace(s) + h;
  }

  /** The hops of several header lines put in one row. */
  function Chain(lines: seq<string>): seq<string> {
    if lines == [] then [] else Split(lines[0]) + Chain(lines[1..])
  }

  function ParseHop<A, P>(net: Net<A, P>, s: string): Result<A> {
    match net.parseAddr(s)
    case Ok(addr) => Ok(net.plain(addr))
    case Err =>
      match net.splitHostPort(s)
      case Err => Err
      case Ok(host) =>
        match net.parseAddr(host)
        case Err => Err
        case Ok(addr) => Ok(net.plain(addr))
  }

  predicate TrustsAny<A, P>(net: Net<A, P>, trusted: seq<P>, addr: A) {
    exists k | 0 <= k < |trusted| :: net.contains(trusted[k], addr)
  }

  /** A resolver may be nil, and then trusts nothing. */
  datatype Resolver<P> = NoResolver | Resolver(trusted: seq<P>)

  predicate Trusts<A, P>(net: Net<A, P>, r: Resolver<P>, addr: A) {
    r.Resolver? && TrustsAny(net, r.trusted, addr)
  }

  // ----- the specification of the scan -----

  /** The hop parses to a trusted address, so the scan goes on past it. */
  predicate Passes<A, P>(net: Net<A, P>, r: Resolver<P>, hop: string) {
    var addr := ParseHop(net, TrimSpace(hop));
    addr.Ok? && Trusts(net, r, addr.value)
  }

  /** The scan stops at position `k`: it fails there and nowhere to the right. */
  ghost predicate StopsAt<A, P>(net: Net<A, P>, r: Resolver<P>, hops: seq<string>, k: nat) {
    && k < |hops|
    && !Passes(net, r, hops[k])
    && forall j | k < j < |hops| :: Passes(net, r, hops[j])
  }

  ghost predicate NeverStops<A, P>(net: Net<A, P>, r: Resolver<P>, hops: seq<string>) {
    forall j | 0 <= j < |hops| :: Passes(net, r, hops[j])
  }

  /** What the stopping hop reports. */
  function Report<A, P>(net: Net<A, P>, hop: string, peer: A): string {
    match ParseHop(net, TrimSpace(hop))
    case Ok(addr) => net.show(addr)
    case Err => net.show(peer)
  }

  function PeerText<A, P>(net: Net<A, P>, remoteAddr: string): string {
    match net.splitHostPort(remoteAddr)
    case Ok(host) => host
    case Err => remoteAddr
  }

  /** The answer, right to left over the hops. */
  function Scan<A, P>(net: Net<A, P>, r: Resolver<P>, hops: seq<string>, peer: A): string {
    if hops == [] then net.show(peer)
    else
      var last := hops[|hops| - 1];
      if Passes(net, r, last) then Scan(net, r, hops[..|hops| - 1], peer)
      else Report(net, last, peer)
  }

  function Resolve<A, P>(net: Net<A, P>, r: Resolver<P>, remoteAddr: string, lines: seq<string>): string {
    var raw := PeerText(net, remoteAddr);
    match ParseHop(net, raw)
    case Err => raw
    case Ok(peer) =>
      if !Trusts(net, r, peer) || Join(lines, ",") == "" then net.show(peer)
      else Scan(net, r, Split(Join(lines, ",")), peer)
  }

  // ----- the code -----

  method CheckTrust<A, P>(net: Net<A, P>, r: Resolver<P>, addr: A) returns (b: bool)
    ensures b == Trusts(net, r, addr)
  {
    if r.NoResolver? {
      return false;
    }
    for i := 0 to |r.trusted|
      invariant forall k | 0 <= k < i :: !net.contains(r.trusted[k], addr)
    {
      if net.contains(r.trusted[i], addr) {
        return true;
      }
    }
    return false;
  }

  /** Some configured prefix contains the address; a nil resolver has none. */
  ghost predicate Configured<A, P>(net: Net<A, P>, r: Resolver<P>, addr: A) {
    exists p | r.Resolver? && p in r.trusted :: net.contains(p, addr)
  }

  lemma TrustsIsConfigured<A, P>(net: Net<A, P>, r: Resolver<P>, addr: A)
    ensures Trusts(net, r, addr) <==> Configured(net, r, addr)
  {
    if Configured(net, r, addr) {
      var p :| p in r.trusted && net.contains(p, addr);
      var k :| 0 <= k < |r.trusted| && r.trusted[k] == p;
    }
  }

  /** `text` stands for the address: as an address, or as a host and port with an address for
      the host; a 4-in-6 address is unmapped and a zone is dropped. */
  ghost predicate Denotes<A, P>(net: Net<A, P>, text: string, addr: A) {
    || (net.parseAddr(text).Ok? && addr == net.plain(net.parseAddr(text).value))
    || (&& net.parseAddr(text).Err?
        && net.splitHostPort(text).Ok?
        && net.parseAddr(net.splitHostPort(text).value).Ok?
        && addr == net.plain(net.parseAddr(net.splitHostPort(text).value).value))
  }

  lemma ParseHopDenotes<A, P>(net: Net<A, P>, text: string)
    ensures forall addr: A :: ParseHop(net, text) == Ok(addr) <==> Denotes(net, text, addr)
  {
  }

  /** The answer in the terms of the request: a peer text that is no address is reported as it
      is; an address that is not configured, and any address when there is no header, is the
      answer; otherwise the hops are those of the header lines in a row, and the rightmost one
      that is not a configured address decides: it is the answer if it is an address, and the
      peer is if it is not, or if there is no such hop. */
  ghost predicate Answers<A(!new), P>(net: Net<A, P>, r: Resolver<P>, remoteAddr: string, lines: seq<string>,
                                      ip: string)
  {
    var raw := if net.splitHostPort(remoteAddr).Ok? then net.splitHostPort(remoteAddr).value else remoteAddr;
    && ((forall peer: A :: !Denotes(net, raw, peer)) ==> ip == raw)
    && (forall peer: A | Denotes(net, raw, peer) :: PeerAnswers(net, r, peer, lines, ip))
  }

  ghost predicate PeerAnswers<A(!new), P>(net: Net<A, P>, r: Resolver<P>, peer: A, lines: seq<string>, ip: string) {
    var hops := Chain(lines);
    && (!Configured(net, r, peer) || Join(lines, ",") == "" ==> ip == net.show(peer))
    && (Configured(net, r, peer) && Join(lines, ",") != "" ==>
          || (ip == net.show(peer) && forall j | 0 <= j < |hops| :: Forwards(net, r, hops[j]))
          || exists k: nat | k < |hops| && !Forwards(net, r, hops[k]) ::
               && (forall j | k < j < |hops| :: Forwards(net, r, hops[j]))
               && HopAnswers(net, hops[k], peer, ip))
  }

  /** The hop is a configured address. */
  ghost predicate Forwards<A(!new), P>(net: Net<A, P>, r: Resolver<P>, hop: string) {
    exists addr: A :: Denotes(net, TrimSpace(hop), addr) && Configured(net, r, addr)
  }

  ghost predicate HopAnswers<A(!new), P>(net: Net<A, P>, hop: string, peer: A, ip: string) {
    || (exists addr: A :: Denotes(net, TrimSpace(hop), addr) && ip == net.show(addr))
    || ((forall addr: A :: !Denotes(net, TrimSpace(hop), addr)) && ip == net.show(peer))
  }

  lemma PassesForwards<A(!new), P>(net: Net<A, P>, r: Resolver<P>, hop: string)
    ensures Passes(net, r, hop) <==> Forwards(net, r, hop)
  {
    hide ParseHop, Denotes, Configured, Trusts;
    var text := TrimSpace(hop);
    ParseHopDenotes(net, text);
    if ParseHop(net, text).Ok? {
      var addr := ParseHop(net, text).value;
      assert Denotes(net, text, addr);
      TrustsIsConfigured(net, r, addr);
    }
  }

  lemma ReportAnswers<A(!new), P>(net: Net<A, P>, hop: string, peer: A)
    ensures HopAnswers(net, hop, peer, Report(net, hop, peer))
  {
    hide ParseHop, Denotes;
    var text := TrimSpace(hop);
    ParseHopDenotes(net, text);
    if ParseHop(net, text).Ok? {
      assert Denotes(net, text, ParseHop(net, text).value);
    }
  }

  lemma ScanAnswers<A(!new), P>(net: Net<A, P>, r: Resolver<P>, peer: A, lines: seq<string>, ip: string)
    requires Configured(net, r, peer) && Join(lines, ",") != "" && ip == Scan(net, r, Split(Join(lines, ",")), peer)
    ensures PeerAnswers(net, r, peer, lines, ip)
  {
    hide Scan, Split, Join, Passes, Forwards, HopAnswers, Configured, Report, Chain;
    var hops := Chain(lines);
    NoLinesNoHeader(lines);
    SplitOfJoin(lines);
    forall j | 0 <= j < |hops| ensures Passes(net, r, hops[j]) <==> Forwards(net, r, hops[j]) {
      PassesForwards(net, r, hops[j]);
    }
    ScanReportsRightmostStop(net, r, hops, peer);
    if !NeverStops(net, r, hops) {
      var k: nat :| StopsAt(net, r, hops, k) && ip == Report(net, hops[k], peer);
      ReportAnswers(net, hops[k], peer);
    }
  }

  lemma NoLinesNoHeader(lines: seq<string>)
    ensures Join(lines, ",") != "" ==> lines != []
  {
  }

  lemma ResolveAnswers<A(!new), P>(net: Net<A, P>, r: Resolver<P>, remoteAddr: string, lines: seq<string>)
    ensures Answers(net, r, remoteAddr, lines, Resolve(net, r, remoteAddr, lines))
  {
    hide Scan, Split, Join, ParseHop, Trusts, Configured, Denotes, Chain, PeerAnswers;
    var ip, raw := Resolve(net, r, remoteAddr, lines), PeerText(net, remoteAddr);
    ParseHopDenotes(net, raw);
    if ParseHop(net, raw).Ok? {
      var peer := ParseHop(net, raw).value;
      TrustsIsConfigured(net, r, peer);
      if Trusts(net, r, peer) && Join(lines, ",") != "" {
        ScanAnswers(net, r, peer, lines, ip);
      } else {
        PeerAlone(net, r, peer, lines);
      }
      assert forall addr: A :: Denotes(net, raw, addr) <==> addr == peer;
    }
  }

  lemma PeerAlone<A(!new), P>(net: Net<A, P>, r: Resolver<P>, peer: A, lines: seq<string>)
    requires !Configured(net, r, peer) || Join(lines, ",") == ""
    ensures PeerAnswers(net, r, peer, lines, net.show(peer))
  {
  }

  method ClientIP<A(!new), P>(net: Net<A, P>, r: Resolver<P>, remoteAddr: string, lines: seq<string>)
      returns (ip: string)
    ensures ip == Resolve(net, r, remoteAddr, lines)
    ensures Answers(net, r, remoteAddr, lines, ip)
  {
    ResolveAnswers(net, r, remoteAddr, lines);
    var raw := PeerText(net, remoteAddr);
    var peer := ParseHop(net, raw);
    if peer.Err? {
      return raw;
    }
    var trusted := CheckTrust(net, r, peer.value);
    if !trusted {
      return net.show(peer.value);
    }
    var forwarded := Join(lines, ",");
    if forwarded == "" {
      return net.show(peer.value);
    }
    var hops := Split(forwarded);
    var i := |hops| - 1;
    assert hops[..|hops|] == hops;
    while i >= 0
      invariant -1 <= i < |hops|
      invariant Scan(net, r, hops[..i + 1], peer.value) == Scan(net, r, hops, peer.value)
    {
      assert hops[..i + 1][..i] == hops[..i];
      var hop := ParseHop(net, TrimSpace(hops[i]));
      if hop.Err? {
        return net.show(peer.value);
      }
      trusted := CheckTrust(net, r, hop.value);
      if !trusted {
        return net.show(hop.value);
      }
      i := i - 1;
    }
    return net.show(peer.value);
  }

  /** What one entry of the configuration stands for: a prefix, or a bare address as the prefix
      that holds it alone. */
  function EntryPrefix<A, P>(net: Net<A, P>, raw: string): Result<P> {
    match net.parsePrefix(TrimSpace(raw))
    case Ok(p) => Ok(p)
    case Err =>
      match net.parseAddr(TrimSpace(raw))
      case Ok(addr) => Ok(net.single(addr))
      case Err => Err
  }

  predicate IsBlank(raw: string) {
    TrimSpace(raw) == ""
  }

  /** Some entry that is not blank stands for a prefix with the address in it. */
  predicate Covers<A, P>(net: Net<A, P>, cidrs: seq<string>, addr: A) {
    exists c | c in cidrs && !IsBlank(c) && EntryPrefix(net, c).Ok? :: net.contains(EntryPrefix(net, c).value, addr)
  }

  lemma CoversAppend<A, P>(net: Net<A, P>, cidrs: seq<string>, c: string, addr: A)
    ensures Covers(net, cidrs + [c], addr) <==>
      || Covers(net, cidrs, addr)
      || (!IsBlank(c) && EntryPrefix(net, c).Ok? && net.contains(EntryPrefix(net, c).value, addr))
  {
    hide EntryPrefix, IsBlank;
    assert forall d :: d in cidrs + [c] <==> d in cidrs || d == c;
  }

  /** In the library's terms: a prefix holds the address, or, where the entry is no prefix but an
      address, the prefix of that one address does. */
  lemma CoversIs<A(!new), P>(net: Net<A, P>, cidrs: seq<string>, addr: A)
    ensures Covers(net, cidrs, addr) <==> exists c | c in cidrs :: EntryCovers(net, TrimSpace(c), addr)
    ensures forall c :: IsBlank(c) || EntryPrefix(net, c).Ok? <==>
      TrimSpace(c) == "" || net.parsePrefix(TrimSpace(c)).Ok? || net.parseAddr(TrimSpace(c)).Ok?
  {
  }

  ghost predicate EntryCovers<A, P>(net: Net<A, P>, entry: string, addr: A) {
    && entry != ""
    && match net.parsePrefix(entry)
       case Ok(p) => net.contains(p, addr)
       case Err => net.parseAddr(entry).Ok? && net.contains(net.single(net.parseAddr(entry).value), addr)
  }

  /** What one entry adds to the trusted prefixes. */
  function Added<A, P>(net: Net<A, P>, c: string): seq<P>
    requires IsBlank(c) || EntryPrefix(net, c).Ok?
  {
    if IsBlank(c) then [] else [EntryPrefix(net, c).value]
  }

  lemma TrustsAppend<A, P>(net: Net<A, P>, trusted: seq<P>, p: P, addr: A)
    ensures TrustsAny(net, trusted + [p], addr) <==> TrustsAny(net, trusted, addr) || net.contains(p, addr)
  {
    var all := trusted + [p];
    assert all[|trusted|] == p && forall k | 0 <= k < |trusted| :: all[k] == trusted[k];
  }

  lemma CoversOneMore<A(!new), P>(net: Net<A, P>, cidrs: seq<string>, c: string, trusted: seq<P>)
    requires IsBlank(c) || EntryPrefix(net, c).Ok?
    requires forall addr: A :: TrustsAny(net, trusted, addr) <==> Covers(net, cidrs, addr)
    ensures forall addr: A :: TrustsAny(net, trusted + Added(net, c), addr) <==> Covers(net, cidrs + [c], addr)
  {
    hide Covers, TrustsAny, EntryPrefix, IsBlank;
    forall addr: A ensures TrustsAny(net, trusted + Added(net, c), addr) <==> Covers(net, cidrs + [c], addr) {
      CoversAppend(net, cidrs, c, addr);
      if IsBlank(c) {
        assert trusted + [] == trusted;
      } else {
        TrustsAppend(net, trusted, EntryPrefix(net, c).value, addr);
      }
    }
  }

  /** Building a resolver succeeds exactly when every entry that is not blank is a prefix or an
      address, and then it trusts exactly the addresses that some such entry covers. */
  method NewIPResolver<A(!new), P>(net: Net<A, P>, cidrs: seq<string>) returns (r: Result<Resolver<P>>)
    ensures r.Ok? <==> forall c | c in cidrs :: IsBlank(c) || EntryPrefix(net, c).Ok?
    ensures r.Ok? ==> r.value.Resolver? && forall addr: A :: Trusts(net, r.value, addr) <==> Covers(net, cidrs, addr)
  {
    hide Covers, TrustsAny;
    var trusted: seq<P> := [];
    assert cidrs[..0] == [];
    NothingCovered(net);
    for i := 0 to |cidrs|
      invariant forall c | c in cidrs[..i] :: IsBlank(c) || EntryPrefix(net, c).Ok?
      invariant forall addr: A :: TrustsAny(net, trusted, addr) <==> Covers(net, cidrs[..i], addr)
    {
      assert cidrs[..i + 1] == cidrs[..i] + [cidrs[i]];
      var entry := TrimSpace(cidrs[i]);
      if entry == "" {
        CoversOneMore(net, cidrs[..i], cidrs[i], trusted);
        assert trusted + [] == trusted;
        continue;
      }
      var p := net.parsePrefix(entry);
      if p.Ok? {
        CoversOneMore(net, cidrs[..i], cidrs[i], trusted);
        trusted := trusted + [p.value];
        continue;
      }
      var addr := net.parseAddr(entry);
      if addr.Err? {
        assert cidrs[i] in cidrs;
        return Err;
      }
      CoversOneMore(net, cidrs[..i], cidrs[i], trusted);
      trusted := trusted + [net.single(addr.value)];
    }
    assert cidrs[..|cidrs|] == cidrs;
    return Ok(Resolver(trusted));
  }

  lemma NothingCovered<A(!new), P>(net: Net<A, P>)
    ensures forall addr: A :: !Covers(net, [], addr) && !TrustsAny(net, [], addr)
  {
  }

  // ----- properties -----

  lemma {:induction false} ScanAtStop<A, P>(net: Net<A, P>, r: Resolver<P>, hops: seq<string>, k: nat, peer: A)
    requires StopsAt(net, r, hops, k)
    ensures Scan(net, r, hops, peer) == Report(net, hops[k], peer)
  {
    hide Passes, Report;
    var n := |hops| - 1;
    if k < n {
      assert Passes(net, r, hops[n]);
      ScanAtStop(net, r, hops[..n], k, peer);
    }
  }

  lemma {:induction false} ScanToTheEnd<A, P>(net: Net<A, P>, r: Resolver<P>, hops: seq<string>, peer: A)
    requires NeverStops(net, r, hops)
    ensures Scan(net, r, hops, peer) == net.show(peer)
  {
    hide Passes;
    if hops != [] {
      ScanToTheEnd(net, r, hops[..|hops| - 1], peer);
    }
  }

  lemma {:induction false} StopExists<A, P>(net: Net<A, P>, r: Resolver<P>, hops: seq<string>) returns (k: nat)
    requires !NeverStops(net, r, hops)
    ensures StopsAt(net, r, hops, k)
  {
    hide Passes;
    k := |hops| - 1;
    if Passes(net, r, hops[k]) {
      k := StopExists(net, r, hops[..k]);
    }
  }

  /** The scan reports its rightmost stopping hop; there is one unless every hop is trusted,
      and then the peer is reported. */
  lemma ScanReportsRightmostStop<A, P>(net: Net<A, P>, r: Resolver<P>, hops: seq<string>, peer: A)
    ensures if NeverStops(net, r, hops) then Scan(net, r, hops, peer) == net.show(peer)
            else exists k: nat :: StopsAt(net, r, hops, k) && Scan(net, r, hops, peer) == Report(net, hops[k], peer)
  {
    hide Passes, Report, Scan, NeverStops, StopsAt;
    if NeverStops(net, r, hops) {
      ScanToTheEnd(net, r, hops, peer);
    } else {
      var k := StopExists(net, r, hops);
      ScanAtStop(net, r, hops, k, peer);
    }
  }

  /** Nothing left of the stopping hop matters, whether it is other hops or nothing at all. */
  lemma {:induction false} ScanIgnoresLeft<A, P>(net: Net<A, P>, r: Resolver<P>, left: seq<string>,
                                                hops: seq<string>, peer: A)
    requires !NeverStops(net, r, hops)
    ensures Scan(net, r, left + hops, peer) == Scan(net, r, hops, peer)
  {
    hide Passes, Report, Scan;
    var k := StopExists(net, r, hops);
    var all := left + hops;
    assert forall j | |left| <= j < |all| :: all[j] == hops[j - |left|];
    ScanAtStop(net, r, hops, k, peer);
    ScanAtStop(net, r, all, |left| + k, peer);
  }

  /** One more character in front. */
  function Prefixed(c: char, hops: seq<string>): seq<string>
    requires hops != []
  {
    if c == ',' then [""] + hops else [[c] + hops[0]] + hops[1..]
  }

  lemma SplitPrefixed(s: string)
    requires s != ""
    ensures Split(s) == Prefixed(s[0], Split(s[1..]))
  {
  }

  lemma PrefixedConcat(c: char, x: seq<string>, y: seq<string>)
    requires x != []
    ensures Prefixed(c, x + y) == Prefixed(c, x) + y
  {
    assert (x + y)[0] == x[0] && (x + y)[1..] == x[1..] + y;
  }

  lemma {:induction false} SplitConcat(a: string, b: string)
    ensures Split(a + "," + b) == Split(a) + Split(b)
  {
    var s := a + "," + b;
    SplitPrefixed(s);
    if a == "" {
      assert s[1..] == b;
    } else {
      hide Split, Prefixed;
      assert s[0] == a[0] && s[1..] == a[1..] + "," + b;
      SplitConcat(a[1..], b);
      SplitPrefixed(a);
      PrefixedConcat(a[0], Split(a[1..]), Split(b));
    }
  }

  /** Joining header lines and splitting the result gives the hops of the lines in a row. */
  lemma {:induction false} SplitOfJoin(lines: seq<string>)
    requires lines != []
    ensures Split(Join(lines, ",")) == Chain(lines)
  {
    hide Split;
    if |lines| == 1 {
      assert Chain(lines[1..]) == [];
      assert Chain(lines) == Split(lines[0]) + [];
    } else {
      SplitOfJoin(lines[1..]);
      SplitConcat(lines[0], Join(lines[1..], ","));
    }
  }

  lemma {:induction false} JoinOfSplit(s: string)
    ensures Join(Split(s), ",") == s
  {
    if s != "" {
      JoinOfSplit(s[1..]);
      var rest := Split(s[1..]);
      if s[0] == ',' {
        assert ([""] + rest)[1..] == rest;
      } else {
        var first := [s[0]] + rest[0];
        assert ([first] + rest[1..])[1..] == rest[1..];
      }
      assert s == [s[0]] + s[1..];
    }
  }

  lemma {:induction false} SplitHasNoComma(s: string)
    ensures forall p | p in Split(s) :: ',' !in p
  {
    if s != "" {
      SplitHasNoComma(s[1..]);
      var rest := Split(s[1..]);
      assert rest[0] in rest && forall p | p in rest[1..] :: p in rest;
    }
  }

  /** The hops are what lies between the commas: the only texts without a comma that the commas
      join to the header. */
  lemma {:induction false} SplitIsUnique(parts: seq<string>)
    requires parts != [] && forall p | p in parts :: ',' !in p
    ensures Split(Join(parts, ",")) == parts
  {
    hide Split;
    if |parts| == 1 {
      assert parts == [parts[0]];
      NoCommaIsOneHop(parts[0]);
    } else {
      SplitIsUnique(parts[1..]);
      assert parts[0] in parts;
      NoCommaIsOneHop(parts[0]);
      SplitConcat(parts[0], Join(parts[1..], ","));
      assert parts == [parts[0]] + parts[1..];
    }
  }

  lemma {:induction false} NoCommaIsOneHop(s: string)
    requires ',' !in s
    ensures Split(s) == [s]
  {
    if s != "" {
      NoCommaIsOneHop(s[1..]);
      assert s == [s[0]] + s[1..];
    }
  }

  /** How the chain is divided into field lines does not matter (section 3.2.2 of RFC 7230):
      header lines with the same hops in a row have the same answer. */
  lemma {:induction false} RegroupingKeepsAnswer<A, P>(net: Net<A, P>, r: Resolver<P>, remoteAddr: string,
                                                      lines: seq<string>, regrouped: seq<string>)
    requires lines != [] && regrouped != [] && Chain(lines) == Chain(regrouped)
    ensures Resolve(net, r, remoteAddr, lines) == Resolve(net, r, remoteAddr, regrouped)
  {
    hide Split, Join, Chain, Scan, ParseHop;
    SplitOfJoin(lines);
    SplitOfJoin(regrouped);
    JoinOfSplit(Join(lines, ","));
    JoinOfSplit(Join(regrouped, ","));
  }

  /** An empty header is not scanned; scanning it would report the peer as well. */
  lemma EmptyHeaderReportsPeer<A, P>(net: Net<A, P>, r: Resolver<P>, peer: A)
    requires ParseHop(net, "").Err?
    ensures Scan(net, r, Split(""), peer) == net.show(peer)
  {
    hide ParseHop;
    assert Split("") == [""] && TrimSpace("") == "";
  }

  /** A caller cannot change the answer by sending text of its own: when the hops of the
      header make the scan stop somewhere, putting any text and a comma in front of the header
      leaves the answer as it is. */
  lemma {:induction false} ForgedPrefixIgnored<A, P>(net: Net<A, P>, r: Resolver<P>, remoteAddr: string,
                                                    header: string, forged: string)
    requires header != "" || ParseHop(net, "").Err?
    requires !NeverStops(net, r, Split(header))
    ensures Resolve(net, r, remoteAddr, [forged + "," + header]) == Resolve(net, r, remoteAddr, [header])
  {
    hide Split, Scan, ParseHop, Trusts, NeverStops;
    SplitConcat(forged, header);
    var peer := ParseHop(net, PeerText(net, remoteAddr));
    if peer.Ok? {
      ScanIgnoresLeft(net, r, Split(forged), Split(header), peer.value);
      if header == "" { EmptyHeaderReportsPeer(net, r, peer.value); }
    }
    assert Join([header], ",") == header && Join([forged + "," + header], ",") == forged + "," + header;
  }

  /** The same for a whole header line sent first. */
  lemma {:induction false} ForgedLineIgnored<A, P>(net: Net<A, P>, r: Resolver<P>, remoteAddr: string,
                                                  lines: seq<string>, forged: string)
    requires lines != [] && !NeverStops(net, r, Chain(lines))
    requires Join(lines, ",") != "" || ParseHop(net, "").Err?
    ensures Resolve(net, r, remoteAddr, [forged] + lines) == Resolve(net, r, remoteAddr, lines)
  {
    hide Split, Scan, ParseHop, Trusts, NeverStops, Chain;
    var header := Join(lines, ",");
    SplitOfJoin(lines);
    assert ([forged] + lines)[1..] == lines;
    assert Join([forged] + lines, ",") == forged + "," + header;
    SplitConcat(forged, header);
    var peer := ParseHop(net, PeerText(net, remoteAddr));
    if peer.Ok? {
      ScanIgnoresLeft(net, r, Split(forged), Split(header), peer.value);
      if header == "" { EmptyHeaderReportsPeer(net, r, peer.value); }
    }
  }
}
