/** app/client_ip.py: who is calling, read from the text of X-Forwarded-For; and the chain that
    app/api/internal_routes.py shows an operator choosing the proxy count.

    The header is text a caller may begin with anything at all. What is an address is left to
    `isIp`, the source's `_looks_like_an_ip`. */
module ClientIp {
  import opened Strings
  import opened Wrappers

  const UNKNOWN := "unknown"

  function Split(s: string): (parts: seq<string>)
    ensures |parts| >= 1
  {
    if s == [] then [[]]
    else
      var rest := Split(s[1..]);
      if s[0] == ',' then [[]] + rest else [[s[0]] + rest[0]] + rest[1..]
  }

  /** The stripped parts that are not blank. */
  function NonBlank(parts: seq<string>): seq<string> {
    if parts == [] then []
    else (if Strip(parts[0]) != [] then [Strip(parts[0])] else []) + NonBlank(parts[1..])
  }

  function Entries(forwarded: string): seq<string> {
    NonBlank(Split(forwarded))
  }

  /** The entries of a header are its parts between commas, stripped, but for the blank ones. */
  lemma EntriesAre(a: string, b: string, part: string)
    requires ',' !in part
    ensures Entries(a + [','] + b) == Entries(a) + Entries(b)
    ensures Entries(part) == if Strip(part) == [] then [] else [Strip(part)]
  {
    assert a + [','] + b == a + "," + b;
    SplitJoin(a, b);
    NonBlankJoin(Split(a), Split(b));
    SplitPlain(part);
    assert [part][1..] == [] && NonBlank([]) == [];
    assert NonBlank([part]) == (if Strip(part) != [] then [Strip(part)] else []) + NonBlank([part][1..]);
  }

  function PeerOf(peer: Option<string>): string {
    if peer.Some? then peer.value else UNKNOWN
  }

  /** The entry `trusted` from the right, or the TCP peer when the chain has none to trust there. */
  function Take(entries: seq<string>, trusted: nat, peer: Option<string>, isIp: string -> bool): string {
    if 0 < trusted <= |entries| && isIp(entries[|entries| - trusted]) then entries[|entries| - trusted]
    else PeerOf(peer)
  }

  /** `client_ip`. */
  function Resolve(trusted: int, peer: Option<string>, forwarded: Option<string>, isIp: string -> bool): string {
    if trusted <= 0 then PeerOf(peer)
    else if forwarded.None? || forwarded.value == "" then PeerOf(peer)
    else Take(Entries(forwarded.value), trusted, peer, isIp)
  }

  function Text(forwarded: Option<string>): string {
    if forwarded.Some? then forwarded.value else ""
  }

  datatype Link = Link(value: string, positionFromRight: nat, trustedIfThisIsYou: nat)

  /** The chain `inspect_forwarded_headers` lists, rightmost first. */
  function Chain(forwarded: Option<string>): seq<Link> {
    var entries := Entries(Text(forwarded));
    seq(|entries|, i requires 0 <= i < |entries| => Link(entries[|entries| - 1 - i], i + 1, i + 1))
  }

  /** Whoever connects is who is asking, where no proxy is trusted, where no header came, where it is shorter than
      what is trusted, and where what stands there is no address; and a connection with no address is "unknown". */
  lemma ConnectionIsTheFallback(trusted: int, p: string, forwarded: Option<string>, isIp: string -> bool)
    ensures var entries := Entries(Text(forwarded));
      trusted <= 0 || forwarded.None? || forwarded == Some("") || |entries| < trusted ||
      !isIp(entries[|entries| - trusted]) ==>
        && Resolve(trusted, Some(p), forwarded, isIp) == p
        && Resolve(trusted, None, forwarded, isIp) == ['u', 'n', 'k', 'n', 'o', 'w', 'n']
  {
  }

  // ---------------------------------------------------------------- what proxies append

  /** An address as a proxy writes it: no comma, no blank at either end. */
  predicate Plain(s: string) {
    s != "" && ',' !in s && !IsSpace(s[0]) && !IsSpace(s[|s| - 1])
  }

  predicate AllPlain(peers: seq<string>) {
    forall i :: 0 <= i < |peers| ==> Plain(peers[i])
  }

  /** A proxy appends the address it received the connection from. */
  function Append(forwarded: Option<string>, peer: string): string {
    match forwarded
    case None => peer
    case Some(h) => h + ", " + peer
  }

  /** The header after each of the proxies in turn has appended its peer. */
  function Through(forwarded: Option<string>, peers: seq<string>): Option<string> {
    if peers == [] then forwarded
    else Some(Append(Through(forwarded, peers[..|peers| - 1]), peers[|peers| - 1]))
  }

  lemma {:induction false} SplitJoin(a: string, b: string)
    ensures Split(a + "," + b) == Split(a) + Split(b)
  {
    if a == [] {
      assert a + "," + b == "," + b;
      assert ("," + b)[1..] == b;
    } else {
      assert (a + "," + b)[1..] == a[1..] + "," + b;
      assert (a + "," + b)[0] == a[0];
      SplitJoin(a[1..], b);
    }
  }

  lemma {:induction false} NonBlankJoin(a: seq<string>, b: seq<string>)
    ensures NonBlank(a + b) == NonBlank(a) + NonBlank(b)
  {
    if a == [] {
      assert a + b == b;
    } else {
      assert (a + b)[1..] == a[1..] + b;
      NonBlankJoin(a[1..], b);
    }
  }

  lemma {:induction false} SplitPlain(s: string)
    requires ',' !in s
    ensures Split(s) == [s]
  {
    if s != [] {
      SplitPlain(s[1..]);
      assert [s[0]] + s[1..] == s;
    }
  }

  lemma PlainEntries(peer: string)
    requires Plain(peer)
    ensures Entries(peer) == [peer] && Entries(" " + peer) == [peer]
  {
    SplitPlain(peer);
    SplitPlain(" " + peer);
    assert (" " + peer)[1..] == peer;
    assert StripLeft(" " + peer) == StripLeft(peer) == peer;
    assert Strip(" " + peer) == Strip(peer) == peer;
    var parts := [" " + peer];
    assert parts[1..] == [] && NonBlank(parts) == [peer] + NonBlank([]);
    assert [peer][1..] == [] && NonBlank([peer]) == [peer] + NonBlank([]);
  }

  lemma AppendAddsOne(forwarded: Option<string>, peer: string)
    requires Plain(peer)
    ensures Append(forwarded, peer) != ""
    ensures Entries(Append(forwarded, peer)) == Entries(Text(forwarded)) + [peer]
  {
    PlainEntries(peer);
    if forwarded.Some? {
      assert Append(forwarded, peer) == forwarded.value + "," + (" " + peer);
      SplitJoin(forwarded.value, " " + peer);
      NonBlankJoin(Split(forwarded.value), Split(" " + peer));
    } else {
      EmptyHasNoEntries();
    }
  }

  /** A reading of headers that finds one entry more when a proxy appends its peer. */
  ghost predicate SeesAppended(entries: string -> seq<string>) {
    entries("") == [] &&
    forall f: Option<string>, p: string :: Plain(p) ==> entries(Append(f, p)) == entries(Text(f)) + [p]
  }

  lemma {:induction false} ChainGrows(entries: string -> seq<string>, forwarded: Option<string>, peers: seq<string>)
    requires SeesAppended(entries) && AllPlain(peers)
    ensures entries(Text(Through(forwarded, peers))) == entries(Text(forwarded)) + peers
  {
    if peers != [] {
      var last, init := peers[|peers| - 1], peers[..|peers| - 1];
      ChainGrows(entries, forwarded, init);
      assert init + [last] == peers;
    }
  }

  lemma EntriesSeesAppended()
    ensures SeesAppended(Entries)
  {
    EmptyHasNoEntries();
    forall f: Option<string>, p: string | Plain(p) ensures Entries(Append(f, p)) == Entries(Text(f)) + [p] {
      AppendAddsOne(f, p);
    }
  }

  lemma EmptyHasNoEntries()
    ensures Entries("") == []
  {
    assert Split("") == [[]] && Strip([]) == [];
    assert NonBlank([[]]) == NonBlank([[]][1..]);
  }

  // ---------------------------------------------------------------- what the caller cannot change

  /** Who a request is taken for once its header has been through the proxies. */
  function Seen(trusted: nat, peer: Option<string>, forwarded: Option<string>, peers: seq<string>,
                isIp: string -> bool): string
  {
    Resolve(trusted, peer, Through(forwarded, peers), isIp)
  }

  /** The same, by any reading of the header. */
  function SeenBy(entries: string -> seq<string>, trusted: nat, peer: Option<string>, forwarded: Option<string>,
                  peers: seq<string>, isIp: string -> bool): string
  {
    Take(entries(Text(Through(forwarded, peers))), trusted, peer, isIp)
  }

  lemma SeenIsSeenByEntries(trusted: nat, peer: Option<string>, forwarded: Option<string>, peers: seq<string>,
                            isIp: string -> bool)
    ensures Seen(trusted, peer, forwarded, peers, isIp) == SeenBy(Entries, trusted, peer, forwarded, peers, isIp)
    ensures SeesAppended(Entries)
  {
    EntriesSeesAppended();
  }

  lemma ProxiesDecide(entries: string -> seq<string>, trusted: nat, peer: Option<string>, forwarded: Option<string>,
                      peers: seq<string>, isIp: string -> bool)
    requires SeesAppended(entries) && AllPlain(peers) && 0 < trusted <= |peers|
    ensures SeenBy(entries, trusted, peer, forwarded, peers, isIp) ==
            if isIp(peers[|peers| - trusted]) then peers[|peers| - trusted] else PeerOf(peer)
  {
    ChainGrows(entries, forwarded, peers);
    var all := entries(Text(forwarded)) + peers;
    assert all[|all| - trusted] == peers[|peers| - trusted];
  }

  /** With more proxies trusted than there are, there is a header that names any address. */
  lemma CallerDecides(entries: string -> seq<string>, trusted: nat, peer: Option<string>, peers: seq<string>,
                      isIp: string -> bool, a: string)
    returns (forwarded: Option<string>)
    requires SeesAppended(entries) && AllPlain(peers) && Plain(a) && isIp(a) && trusted > |peers|
    ensures SeenBy(entries, trusted, peer, forwarded, peers, isIp) == a
  {
    var mine := Copies(a, trusted - |peers|);
    forwarded := Through(None, mine);
    ChainGrows(entries, None, mine);
    assert [] + mine == mine;
    ChainGrows(entries, forwarded, peers);
    assert (mine + peers)[0] == a;
  }

  function Copies(a: string, n: nat): (r: seq<string>)
    ensures |r| == n && forall i :: 0 <= i < n ==> r[i] == a
  {
    if n == 0 then [] else [a] + Copies(a, n - 1)
  }

  /** Behind at least as many proxies as are trusted, the answer is what the proxies wrote: nothing
      the caller put in the header has a say. */
  lemma HeaderHasNoSay(trusted: nat, peer: Option<string>, forwarded: Option<string>, peers: seq<string>,
                       isIp: string -> bool)
    requires 0 < trusted <= |peers| && AllPlain(peers)
    ensures Seen(trusted, peer, forwarded, peers, isIp) ==
            if isIp(peers[|peers| - trusted]) then peers[|peers| - trusted] else PeerOf(peer)
  {
    SeenIsSeenByEntries(trusted, peer, forwarded, peers, isIp);
    ProxiesDecide(Entries, trusted, peer, forwarded, peers, isIp);
  }

  /** With the count equal to the number of proxies, the caller is the address the first one saw. */
  lemma FirstProxySawTheCaller(peer: Option<string>, forwarded: Option<string>, peers: seq<string>,
                               isIp: string -> bool)
    requires peers != [] && AllPlain(peers) && isIp(peers[0])
    ensures Seen(|peers|, peer, forwarded, peers, isIp) == peers[0]
  {
    HeaderHasNoSay(|peers|, peer, forwarded, peers, isIp);
  }

  /** No header the caller can send changes who it is taken for. */
  ghost predicate Independent(trusted: nat, peer: Option<string>, peers: seq<string>, isIp: string -> bool) {
    forall f, f' :: Seen(trusted, peer, f, peers, isIp) == Seen(trusted, peer, f', peers, isIp)
  }

  /** The count is safe exactly up to the number of proxies there are. */
  lemma IndependentIff(trusted: nat, peer: Option<string>, peers: seq<string>, isIp: string -> bool, a: string,
                       b: string)
    requires AllPlain(peers) && Plain(a) && Plain(b) && isIp(a) && isIp(b) && a != b
    ensures Independent(trusted, peer, peers, isIp) <==> trusted <= |peers|
  {
    if trusted <= |peers| {
      EnoughProxies(trusted, peer, peers, isIp);
    } else {
      TooManyTrusted(trusted, peer, peers, isIp, a, b);
    }
  }

  lemma TooManyTrusted(trusted: nat, peer: Option<string>, peers: seq<string>, isIp: string -> bool, a: string,
                       b: string)
    requires AllPlain(peers) && Plain(a) && Plain(b) && isIp(a) && isIp(b) && a != b
    requires trusted > |peers|
    ensures !Independent(trusted, peer, peers, isIp)
  {
    var f := CallerChooses(trusted, peer, peers, isIp, a);
    var f' := CallerChooses(trusted, peer, peers, isIp, b);
    assert Seen(trusted, peer, f, peers, isIp) != Seen(trusted, peer, f', peers, isIp);
  }

  lemma EnoughProxies(trusted: nat, peer: Option<string>, peers: seq<string>, isIp: string -> bool)
    requires AllPlain(peers) && trusted <= |peers|
    ensures Independent(trusted, peer, peers, isIp)
  {
    forall f, f' ensures Seen(trusted, peer, f, peers, isIp) == Seen(trusted, peer, f', peers, isIp) {
      if trusted > 0 {
        HeaderHasNoSay(trusted, peer, f, peers, isIp);
        HeaderHasNoSay(trusted, peer, f', peers, isIp);
      }
    }
  }

  lemma CallerChooses(trusted: nat, peer: Option<string>, peers: seq<string>, isIp: string -> bool, a: string)
    returns (forwarded: Option<string>)
    requires AllPlain(peers) && Plain(a) && isIp(a) && trusted > |peers|
    ensures Seen(trusted, peer, forwarded, peers, isIp) == a
  {
    EntriesSeesAppended();
    forwarded := CallerDecides(Entries, trusted, peer, peers, isIp, a);
    SeenIsSeenByEntries(trusted, peer, forwarded, peers, isIp);
  }

  // ---------------------------------------------------------------- a header of several lines

  /** What a proxy does to the header's lines: extends the first one, or adds one of its own after them. */
  datatype Hop = Extends(peer: string) | AddsLine(peer: string)

  /** What is read of a header of several lines: the first, as Starlette's `Headers.get` does. */
  function FirstLine(lines: seq<string>): Option<string> {
    if lines == [] then None else Some(lines[0])
  }

  function OneHop(lines: seq<string>, hop: Hop): seq<string> {
    match hop
    case Extends(peer) => if lines == [] then [peer] else lines[0 := Append(Some(lines[0]), peer)]
    case AddsLine(peer) => lines + [peer]
  }

  /** The header's lines after each of the proxies in turn. */
  function Lines(lines: seq<string>, hops: seq<Hop>): seq<string> {
    if hops == [] then lines else OneHop(Lines(lines, hops[..|hops| - 1]), hops[|hops| - 1])
  }

  /** The peers of the proxies that extend the first line. */
  function Extenders(hops: seq<Hop>): seq<string> {
    if hops == [] then []
    else
      var before, last := Extenders(hops[..|hops| - 1]), hops[|hops| - 1];
      if last.Extends? then before + [last.peer] else before
  }

  predicate PlainHops(hops: seq<Hop>) {
    forall i :: 0 <= i < |hops| ==> Plain(hops[i].peer)
  }

  /** Who a request is taken for when its header comes in lines. */
  function SeenInLines(trusted: nat, peer: Option<string>, lines: seq<string>, hops: seq<Hop>,
                       isIp: string -> bool): string
  {
    Resolve(trusted, peer, FirstLine(Lines(lines, hops)), isIp)
  }

  /** Nothing in the lines the caller can send changes who it is taken for. */
  ghost predicate IndependentOfLines(trusted: nat, peer: Option<string>, hops: seq<Hop>, isIp: string -> bool) {
    forall ls, ls' :: SeenInLines(trusted, peer, ls, hops, isIp) == SeenInLines(trusted, peer, ls', hops, isIp)
  }

  /** Of a header that has a line already, the proxies that extend the first are all that is read. */
  lemma {:induction false} FirstLineThrough(lines: seq<string>, hops: seq<Hop>)
    requires lines != []
    ensures Lines(lines, hops) != [] && FirstLine(Lines(lines, hops)) == Through(Some(lines[0]), Extenders(hops))
  {
    if hops != [] {
      FirstLineThrough(lines, hops[..|hops| - 1]);
      var before := Extenders(hops[..|hops| - 1]);
      assert (before + [hops[|hops| - 1].peer])[..|before|] == before;
    }
  }

  /** Of a header that has none, the first proxy makes the first line, whatever it does. */
  lemma {:induction false} NoLineThrough(hops: seq<Hop>)
    ensures hops == [] ==> FirstLine(Lines([], hops)) == None
    ensures hops != [] ==> FirstLine(Lines([], hops)) == Through(Some(hops[0].peer), Extenders(hops[1..]))
    ensures hops != [] ==> Lines([], hops) != []
  {
    if |hops| == 1 {
      assert hops[..0] == [] && hops[1..] == [];
    } else if |hops| > 1 {
      var init := hops[..|hops| - 1];
      NoLineThrough(init);
      assert hops[1..][..|hops[1..]| - 1] == init[1..];
      var before := Extenders(init[1..]);
      assert (before + [hops[|hops| - 1].peer])[..|before|] == before;
    }
  }

  lemma {:induction false} ExtendersFromTheFirst(hops: seq<Hop>)
    requires hops != []
    ensures Extenders(hops) == (if hops[0].Extends? then [hops[0].peer] else []) + Extenders(hops[1..])
  {
    if |hops| == 1 {
      assert hops[..0] == [] && hops[1..] == [];
    } else {
      var init := hops[..|hops| - 1];
      ExtendersFromTheFirst(init);
      assert hops[1..][..|hops[1..]| - 1] == init[1..];
    }
  }

  lemma {:induction false} ExtendersArePlain(hops: seq<Hop>)
    requires PlainHops(hops)
    ensures AllPlain(Extenders(hops))
  {
    if hops != [] {
      ExtendersArePlain(hops[..|hops| - 1]);
    }
  }

  predicate AllExtend(hops: seq<Hop>) {
    forall i :: 0 <= i < |hops| ==> hops[i].Extends?
  }

  lemma {:induction false} ExtendersAreAllIff(hops: seq<Hop>)
    ensures |Extenders(hops)| <= |hops|
    ensures |Extenders(hops)| == |hops| <==> AllExtend(hops)
  {
    if hops != [] {
      var init, last := hops[..|hops| - 1], hops[|hops| - 1];
      ExtendersAreAllIff(init);
      assert hops == init + [last];
      assert AllExtend(hops) <==> AllExtend(init) && last.Extends?;
    }
  }

  ghost predicate EndsWith(all: seq<string>, own: seq<string>) {
    |own| <= |all| && all[|all| - |own|..] == own
  }

  /** What is read ends with what the extending proxies wrote, whether the caller sent a line or none. */
  lemma ReadThrough(lines: seq<string>, hops: seq<Hop>) returns (forwarded: Option<string>, all: seq<string>)
    requires PlainHops(hops) && Extenders(hops) != []
    ensures FirstLine(Lines(lines, hops)) == Through(forwarded, all)
    ensures AllPlain(all) && EndsWith(all, Extenders(hops))
  {
    ExtendersArePlain(hops);
    if lines != [] {
      FirstLineThrough(lines, hops);
      forwarded, all := Some(lines[0]), Extenders(hops);
    } else {
      NoLineThrough(hops);
      ExtendersFromTheFirst(hops);
      ThroughFromNone(hops[0].peer, Extenders(hops[1..]));
      forwarded, all := None, [hops[0].peer] + Extenders(hops[1..]);
      assert all == if hops[0].Extends? then Extenders(hops) else [hops[0].peer] + Extenders(hops);
    }
  }

  /** Behind at least as many extending proxies as are trusted, nothing in any line the caller sent has a say. */
  lemma LinesHaveNoSay(trusted: nat, peer: Option<string>, lines: seq<string>, hops: seq<Hop>, isIp: string -> bool)
    requires 0 < trusted <= |Extenders(hops)| && PlainHops(hops)
    ensures SeenInLines(trusted, peer, lines, hops, isIp) == Take(Extenders(hops), trusted, peer, isIp)
  {
    var forwarded, all := ReadThrough(lines, hops);
    ReadDecides(trusted, peer, FirstLine(Lines(lines, hops)), forwarded, all, Extenders(hops), isIp);
  }

  lemma ReadDecides(trusted: nat, peer: Option<string>, read: Option<string>, forwarded: Option<string>,
                    all: seq<string>, own: seq<string>, isIp: string -> bool)
    requires 0 < trusted <= |own| && AllPlain(all) && EndsWith(all, own) && read == Through(forwarded, all)
    ensures Resolve(trusted, peer, read, isIp) == Take(own, trusted, peer, isIp)
  {
    HeaderHasNoSay(trusted, peer, forwarded, all, isIp);
  }

  lemma {:induction false} ThroughFromNone(first: string, peers: seq<string>)
    ensures Through(Some(first), peers) == Through(None, [first] + peers)
  {
    var all := [first] + peers;
    if peers == [] {
      assert all[..0] == [] && all == [first];
    } else {
      ThroughFromNone(first, peers[..|peers| - 1]);
      assert all[..|all| - 1] == [first] + peers[..|peers| - 1];
    }
  }

  /** With lines to send, the count is safe exactly up to the number of proxies that extend the first: a proxy
      that adds a line of its own is not read, and does not count. */
  lemma IndependentOfLinesIff(trusted: nat, peer: Option<string>, hops: seq<Hop>, isIp: string -> bool, a: string,
                              b: string)
    requires PlainHops(hops) && Plain(a) && Plain(b) && isIp(a) && isIp(b) && a != b
    ensures IndependentOfLines(trusted, peer, hops, isIp) <==> trusted <= |Extenders(hops)|
  {
    ExtendersArePlain(hops);
    if trusted <= |Extenders(hops)| {
      forall ls, ls' ensures SeenInLines(trusted, peer, ls, hops, isIp) == SeenInLines(trusted, peer, ls', hops, isIp) {
        if trusted > 0 {
          LinesHaveNoSay(trusted, peer, ls, hops, isIp);
          LinesHaveNoSay(trusted, peer, ls', hops, isIp);
        }
      }
    } else {
      var ls := CallerSends(trusted, peer, hops, isIp, a);
      var ls' := CallerSends(trusted, peer, hops, isIp, b);
      assert SeenInLines(trusted, peer, ls, hops, isIp) != SeenInLines(trusted, peer, ls', hops, isIp);
    }
  }

  /** No header and an empty one come to the same. */
  lemma TextIsAll(trusted: nat, peer: Option<string>, forwarded: Option<string>, peers: seq<string>,
                  isIp: string -> bool)
    requires AllPlain(peers)
    ensures Seen(trusted, peer, Some(Text(forwarded)), peers, isIp) == Seen(trusted, peer, forwarded, peers, isIp)
  {
    EntriesSeesAppended();
    SeenIsSeenByEntries(trusted, peer, forwarded, peers, isIp);
    SeenIsSeenByEntries(trusted, peer, Some(Text(forwarded)), peers, isIp);
    ChainGrows(Entries, forwarded, peers);
    ChainGrows(Entries, Some(Text(forwarded)), peers);
  }

  lemma CallerSends(trusted: nat, peer: Option<string>, hops: seq<Hop>, isIp: string -> bool, a: string)
    returns (lines: seq<string>)
    requires PlainHops(hops) && Plain(a) && isIp(a) && trusted > |Extenders(hops)|
    ensures SeenInLines(trusted, peer, lines, hops, isIp) == a
  {
    ExtendersArePlain(hops);
    var mine := CallerChooses(trusted, peer, Extenders(hops), isIp, a);
    lines := [Text(mine)];
    FirstLineThrough(lines, hops);
    TextIsAll(trusted, peer, mine, Extenders(hops), isIp);
  }

  /** The count of all the proxies is safe exactly when every one of them extends the first line. */
  lemma CountingAllIsSafeIff(peer: Option<string>, hops: seq<Hop>, isIp: string -> bool, a: string, b: string)
    requires PlainHops(hops) && Plain(a) && Plain(b) && isIp(a) && isIp(b) && a != b
    ensures IndependentOfLines(|hops|, peer, hops, isIp) <==> AllExtend(hops)
  {
    ExtendersAreAllIff(hops);
    IndependentOfLinesIff(|hops|, peer, hops, isIp, a, b);
  }

  // ---------------------------------------------------------------- the diagnostic

  /** The chain lists the entries from the right, each with its place counted from there. */
  lemma ChainIs(forwarded: Option<string>, k: nat)
    ensures |Chain(forwarded)| == |Entries(Text(forwarded))|
    ensures k < |Chain(forwarded)| ==>
      Chain(forwarded)[k] == Link(Entries(Text(forwarded))[|Chain(forwarded)| - 1 - k], k + 1, k + 1)
  {
  }

  /** The diagnostic agrees with the function it diagnoses: set the count an entry suggests, and that
      entry is who the caller is, if it is an address; no other count finds an entry. */
  lemma ChainAgrees(peer: Option<string>, forwarded: Option<string>, isIp: string -> bool)
    ensures var chain := Chain(forwarded);
      && (forall k :: 0 <= k < |chain| ==>
            Resolve(chain[k].trustedIfThisIsYou, peer, forwarded, isIp) ==
            if isIp(chain[k].value) then chain[k].value else PeerOf(peer))
      && (forall trusted: int :: !(1 <= trusted <= |chain|) ==>
            Resolve(trusted, peer, forwarded, isIp) == PeerOf(peer))
  {
    EmptyHasNoEntries();
  }
}
