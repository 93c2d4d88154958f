/** collector/traces.go: naming the two sides of the spans of a batch, in two passes.

    First every span of a node agent teaches the addresses of its own side; only then are
    peers looked up in what was learned. So the order of the spans of a batch does not matter unless
    two of them claim an address for different applications; this module proves exactly when it does. */
module SpanNaming {
  import opened Prelude
  import opened TraceSpans
  import Recent = RecentAddresses

  datatype Names = Names(client: string, server: string)

  /** SpanApplications as a function, and the IPs of nodes, None for a nil directory. */
  datatype Directory = Directory(names: Pending -> Names, nodeIps: Option<set<string>>)

  function FirstOf(attrs: Attrs, keys: seq<string>): string {
    if keys == [] then ""
    else if Attr(attrs, keys[0]) != "" then Attr(attrs, keys[0])
    else FirstOf(attrs, keys[1..])
  }

  /** A server span's peer. */
  function ClientAddress(attrs: Attrs): string {
    FirstOf(attrs, ["client.address", "net.sock.peer.addr", "net.peer.ip", "http.client_ip"])
  }

  function JoinPort(env: Env, host: string, port: string): string {
    if port != "" then env.net.joinHostPort(host, port) else host
  }

  /** A client span's peer. */
  function ServerAddress(env: Env, attrs: Attrs): string {
    if Attr(attrs, "server.address") != "" then
      JoinPort(env, Attr(attrs, "server.address"), Attr(attrs, "server.port"))
    else if Attr(attrs, "net.peer.name") != "" then
      JoinPort(env, Attr(attrs, "net.peer.name"), Attr(attrs, "net.peer.port"))
    else if env.urlHost(Attr(attrs, "http.url")) != "" then env.urlHost(Attr(attrs, "http.url"))
    else env.urlHost(Attr(attrs, "url.full"))
  }

  /** What an agent's span teaches: where its own side is, and which application that is. */
  function Lesson(env: Env, directory: Directory, p: Pending, now: Instant): Option<Recent.Record> {
    var names := directory.names(p);
    var ip, port, local := Attr(p.span, "server.address"), Attr(p.span, "server.port"), Attr(p.span, "network.local.address");
    if p.fromAgent && p.kind == Server && ip != "" && port != "" then
      Some(Recent.Record(directory.nodeIps, env.net.joinHostPort(ip, port), Recent.Known(names.server, now), now))
    else if p.fromAgent && p.kind == Client && local != "" then
      Some(Recent.Record(directory.nodeIps, local, Recent.Known(names.client, now), now))
    else None
  }

  function Lessons(env: Env, directory: Directory, ps: seq<Pending>, now: Instant): seq<Recent.Record> {
    if ps == [] then []
    else
      Lessons(env, directory, ps[..|ps| - 1], now) + LessonOf(env, directory, ps[|ps| - 1], now)
  }

  function LessonOf(env: Env, directory: Directory, p: Pending, now: Instant): seq<Recent.Record> {
    match Lesson(env, directory, p, now)
    case Some(r) => [r]
    case None => []
  }

  /** The names of a span, its unknown peer named by the recent addresses. */
  function NamesOf(env: Env, directory: Directory, m: Recent.Memory, p: Pending, now: Instant): Names {
    var names := directory.names(p);
    match p.kind
    case Server | Consumer => Names(PeerName(env, m, ClientAddress(p.span), names.client, now), names.server)
    case Client | Producer => Names(names.client, PeerName(env, m, ServerAddress(env, p.span), names.server, now))
    case _ => names
  }

  function PeerName(env: Env, m: Recent.Memory, address: string, name: string, now: Instant): string {
    if address != "" && name == address then
      match Recent.Found(env.net, m, address, now)
      case Some(application) => application
      case None => name
    else name
  }

  /** The names of all spans of a batch written after the addresses of h were recorded. */
  function BatchNames(env: Env, directory: Directory, h: seq<Recent.Record>, ps: seq<Pending>, now: Instant): seq<Names> {
    var m := Recent.Run(env.net, h + Lessons(env, directory, ps, now));
    seq(|ps|, i requires 0 <= i < |ps| => NamesOf(env, directory, m, ps[i], now))
  }

  // ----- the order of the spans does not matter -----

  lemma {:induction false} LessonsAreOfSpans(env: Env, directory: Directory, ps: seq<Pending>, now: Instant, r: Recent.Record)
    ensures r in Lessons(env, directory, ps, now) <==> exists p :: p in ps && Lesson(env, directory, p, now) == Some(r)
  {
    if ps != [] {
      var before, last := ps[..|ps| - 1], ps[|ps| - 1];
      LessonsAreOfSpans(env, directory, before, now, r);
      assert ps == before + [last];
      if Lesson(env, directory, last, now) == Some(r) {
        assert last in ps;
      }
    }
  }

  // The lessons of a batch are of one moment: each is recorded, and seen, now.
  ghost predicate OneMoment(ls: seq<Recent.Record>, now: Instant) {
    forall r :: r in ls ==> r.clock == now && r.known.seen == now
  }

  ghost predicate SomeAccepted(net: Recent.Net, ls: seq<Recent.Record>) {
    exists r :: r in ls && Recent.Accepted(net, r)
  }

  ghost predicate SomeClaims(net: Recent.Net, ls: seq<Recent.Record>, key: string, listen: bool) {
    exists r :: r in ls && Recent.Claims(net, r, key, listen)
  }

  /** The first claim at a key. */
  function FirstClaim(net: Recent.Net, ls: seq<Recent.Record>, key: string, listen: bool): Option<Recent.Known> {
    if ls == [] then None
    else
      var before, last := FirstClaim(net, ls[..|ls| - 1], key, listen), ls[|ls| - 1];
      if before == None && Recent.Claims(net, last, key, listen) then Some(last.known) else before
  }

  /** When the memory was last pruned, after lessons of one moment (accepted: some were recorded). */
  function LearnedPrune(m: Recent.Memory, accepted: bool, now: Instant): int {
    if accepted && Recent.PruneDue(m, now) then now else m.lastPrune
  }

  /** What lessons of one moment leave at a key where the memory has entry, first being the first claim. */
  function LearnedEntry(m: Recent.Memory, entry: Option<Recent.Known>, accepted: bool, first: Option<Recent.Known>,
                        now: Instant): Option<Recent.Known> {
    var kept := if accepted && Recent.PruneDue(m, now) && entry.Some? && !Recent.Fresh(entry.value, now) then None else entry;
    if first.Some? && (kept == None || now > kept.value.seen) then first else kept
  }

  lemma {:induction false} LearnedAtOnce(net: Recent.Net, h: seq<Recent.Record>, ls: seq<Recent.Record>, now: Instant,
                                         key: string, listen: bool)
    requires OneMoment(ls, now)
    ensures var m := Recent.Run(net, h);
            var accepted, first := SomeAccepted(net, ls), FirstClaim(net, ls, key, listen);
            && Recent.Run(net, h + ls).lastPrune == LearnedPrune(m, accepted, now)
            && Recent.Entry(Recent.Page(Recent.Run(net, h + ls), listen), key)
               == LearnedEntry(m, Recent.Entry(Recent.Page(m, listen), key), accepted, first, now)
  {
    if ls == [] {
      assert h + ls == h;
      return;
    }
    var before, r := ls[..|ls| - 1], ls[|ls| - 1];
    assert ls == before + [r];
    LearnedAtOnce(net, h, before, now, key, listen);
    assert (h + ls)[..|h + ls| - 1] == h + before;
    SomeOfLonger(net, before, r, key, listen);
    FirstIsClaim(net, before, key, listen);
    LearnOneMore(net, Recent.Run(net, h), Recent.Run(net, h + before), r, now, key, listen,
                 SomeAccepted(net, before), FirstClaim(net, before, key, listen));
  }

  lemma SomeOfLonger(net: Recent.Net, before: seq<Recent.Record>, r: Recent.Record, key: string, listen: bool)
    ensures SomeAccepted(net, before + [r]) <==> SomeAccepted(net, before) || Recent.Accepted(net, r)
    ensures SomeClaims(net, before + [r], key, listen) <==> SomeClaims(net, before, key, listen) || Recent.Claims(net, r, key, listen)
    ensures SomeClaims(net, before, key, listen) ==> SomeAccepted(net, before)
  {
    assert forall x :: x in before + [r] <==> x in before || x == r;
  }

  lemma {:induction false} FirstIsClaim(net: Recent.Net, ls: seq<Recent.Record>, key: string, listen: bool)
    ensures FirstClaim(net, ls, key, listen).Some? <==> SomeClaims(net, ls, key, listen)
    ensures SomeClaims(net, ls, key, listen) ==>
              exists r :: r in ls && Recent.Claims(net, r, key, listen) && FirstClaim(net, ls, key, listen) == Some(r.known)
  {
    if ls != [] {
      var before, last := ls[..|ls| - 1], ls[|ls| - 1];
      assert ls == before + [last];
      FirstIsClaim(net, before, key, listen);
      SomeOfLonger(net, before, last, key, listen);
      if FirstClaim(net, before, key, listen).Some? {
        var r :| r in before && Recent.Claims(net, r, key, listen) && FirstClaim(net, before, key, listen) == Some(r.known);
        assert r in ls;
      } else if Recent.Claims(net, last, key, listen) {
        assert last in ls;
      }
    }
  }

  lemma LearnOneMore(net: Recent.Net, m0: Recent.Memory, m: Recent.Memory, r: Recent.Record, now: Instant,
                     key: string, listen: bool, accepted: bool, first: Option<Recent.Known>)
    requires m.lastPrune == LearnedPrune(m0, accepted, now)
    requires Recent.Entry(Recent.Page(m, listen), key)
             == LearnedEntry(m0, Recent.Entry(Recent.Page(m0, listen), key), accepted, first, now)
    requires first.Some? ==> accepted && first.value.seen == now
    requires r.clock == r.known.seen == now
    ensures var m', accepted' := Recent.Step(net, m, r, Recent.PruneDue(m, now)), accepted || Recent.Accepted(net, r);
            var first' := if first == None && Recent.Claims(net, r, key, listen) then Some(r.known) else first;
            && m'.lastPrune == LearnedPrune(m0, accepted', now)
            && Recent.Entry(Recent.Page(m', listen), key)
               == LearnedEntry(m0, Recent.Entry(Recent.Page(m0, listen), key), accepted', first', now)
  {
    Recent.StepAtKey(net, m, r, Recent.PruneDue(m, now), key, listen);
  }

  // ----- when the order matters -----

  /** A lesson seen now would be learned at the key: nothing as late is known there. */
  predicate Learnable(m: Recent.Memory, key: string, listen: bool, now: Instant) {
    var entry := Recent.Entry(Recent.Page(m, listen), key);
    entry == None || now > entry.value.seen
  }

  /** Two lessons that would be learned at the key are for different applications. */
  ghost predicate Contested(net: Recent.Net, m: Recent.Memory, ls: seq<Recent.Record>, key: string, listen: bool, now: Instant) {
    && Learnable(m, key, listen, now)
    && exists r, r' :: r in ls && r' in ls && Recent.Claims(net, r, key, listen) && Recent.Claims(net, r', key, listen)
                       && r.known != r'.known
  }

  /** Where nothing is contested, lessons with the same elements leave the same. */
  lemma {:induction false} SameEntryUnlessContested(net: Recent.Net, h: seq<Recent.Record>, ls: seq<Recent.Record>, ls': seq<Recent.Record>,
                                 now: Instant, key: string, listen: bool)
    requires OneMoment(ls, now) && forall r :: r in ls <==> r in ls'
    requires !Contested(net, Recent.Run(net, h), ls, key, listen, now)
    ensures Recent.Run(net, h + ls).lastPrune == Recent.Run(net, h + ls').lastPrune
    ensures Recent.Entry(Recent.Page(Recent.Run(net, h + ls), listen), key)
            == Recent.Entry(Recent.Page(Recent.Run(net, h + ls'), listen), key)
  {
    LearnedAtOnce(net, h, ls, now, key, listen);
    LearnedAtOnce(net, h, ls', now, key, listen);
    FirstIsClaim(net, ls, key, listen);
    FirstIsClaim(net, ls', key, listen);
    assert SomeAccepted(net, ls) == SomeAccepted(net, ls') && SomeClaims(net, ls, key, listen) == SomeClaims(net, ls', key, listen);
    if SomeClaims(net, ls, key, listen) && Learnable(Recent.Run(net, h), key, listen, now) {
      var r :| r in ls && Recent.Claims(net, r, key, listen) && FirstClaim(net, ls, key, listen) == Some(r.known);
      var r' :| r' in ls' && Recent.Claims(net, r', key, listen) && FirstClaim(net, ls', key, listen) == Some(r'.known);
      assert r' in ls && r.known == r'.known;
    }
  }

  /** Where a lesson is learnable, the first claim is what is there afterwards. */
  lemma FirstIsLearned(net: Recent.Net, h: seq<Recent.Record>, ls: seq<Recent.Record>, now: Instant, key: string, listen: bool)
    requires OneMoment(ls, now) && Learnable(Recent.Run(net, h), key, listen, now) && SomeClaims(net, ls, key, listen)
    ensures Recent.Entry(Recent.Page(Recent.Run(net, h + ls), listen), key) == FirstClaim(net, ls, key, listen)
  {
    LearnedAtOnce(net, h, ls, now, key, listen);
    FirstIsClaim(net, ls, key, listen);
  }

  lemma {:induction false} FrontIsFirst(net: Recent.Net, r: Recent.Record, rest: seq<Recent.Record>, key: string, listen: bool)
    requires Recent.Claims(net, r, key, listen)
    ensures FirstClaim(net, [r] + rest, key, listen) == Some(r.known)
  {
    var ls := [r] + rest;
    if rest == [] {
      assert ls[..0] == [] && ls[0] == r;
    } else {
      assert ls[..|ls| - 1] == [r] + rest[..|rest| - 1];
      FrontIsFirst(net, r, rest[..|rest| - 1], key, listen);
    }
  }

  /** An entry by ip:port is there after the lessons. */
  ghost predicate ListenAfter(net: Recent.Net, m: Recent.Memory, ls: seq<Recent.Record>, address: string, now: Instant) {
    || SomeClaims(net, ls, address, true)
    || (address in m.byListen && (SomeAccepted(net, ls) && Recent.PruneDue(m, now) ==> Recent.Fresh(m.byListen[address], now)))
  }

  /** The entry that decides a lookup is contested: the one by ip:port if there is one, or that of the IP. */
  ghost predicate LookupContested(net: Recent.Net, m: Recent.Memory, ls: seq<Recent.Record>, address: string, now: Instant) {
    if ListenAfter(net, m, ls, address, now) then Contested(net, m, ls, address, true, now)
    else Contested(net, m, ls, Recent.Host(net, address), false, now)
  }

  lemma ListenIsAfter(net: Recent.Net, h: seq<Recent.Record>, ls: seq<Recent.Record>, address: string, now: Instant)
    requires OneMoment(ls, now)
    ensures address in Recent.Run(net, h + ls).byListen <==> ListenAfter(net, Recent.Run(net, h), ls, address, now)
  {
    LearnedAtOnce(net, h, ls, now, address, true);
    FirstIsClaim(net, ls, address, true);
  }

  lemma SameElementsSame(net: Recent.Net, m: Recent.Memory, ls: seq<Recent.Record>, ls': seq<Recent.Record>,
                         address: string, now: Instant)
    requires forall r :: r in ls <==> r in ls'
    ensures ListenAfter(net, m, ls, address, now) == ListenAfter(net, m, ls', address, now)
  {
  }

  /** A lookup that is not contested finds the same whatever the order. */
  lemma {:induction false} SameFoundUnlessContested(net: Recent.Net, h: seq<Recent.Record>, ls: seq<Recent.Record>, ls': seq<Recent.Record>,
                                 address: string, now: Instant)
    requires OneMoment(ls, now) && forall r :: r in ls <==> r in ls'
    requires !LookupContested(net, Recent.Run(net, h), ls, address, now)
    ensures Recent.Found(net, Recent.Run(net, h + ls), address, now) == Recent.Found(net, Recent.Run(net, h + ls'), address, now)
  {
    ListenIsAfter(net, h, ls, address, now);
    ListenIsAfter(net, h, ls', address, now);
    SameElementsSame(net, Recent.Run(net, h), ls, ls', address, now);
    if ListenAfter(net, Recent.Run(net, h), ls, address, now) {
      SameEntryUnlessContested(net, h, ls, ls', now, address, true);
    } else {
      SameEntryUnlessContested(net, h, ls, ls', now, Recent.Host(net, address), false);
    }
  }

  /** A contested lookup finds the application of the lesson in front. */
  lemma FrontIsFound(net: Recent.Net, h: seq<Recent.Record>, r: Recent.Record, rest: seq<Recent.Record>,
                     address: string, now: Instant)
    requires OneMoment([r] + rest, now)
    requires var m, ls := Recent.Run(net, h), [r] + rest;
             var listen := ListenAfter(net, m, ls, address, now);
             var key := if listen then address else Recent.Host(net, address);
             Learnable(m, key, listen, now) && Recent.Claims(net, r, key, listen)
    ensures Recent.Found(net, Recent.Run(net, h + ([r] + rest)), address, now) == Some(r.known.application)
  {
    var m, ls := Recent.Run(net, h), [r] + rest;
    var listen := ListenAfter(net, m, ls, address, now);
    var key := if listen then address else Recent.Host(net, address);
    ListenIsAfter(net, h, ls, address, now);
    assert r in ls;
    FirstIsLearned(net, h, ls, now, key, listen);
    FrontIsFirst(net, r, rest, key, listen);
  }

  // ----- the names of a batch -----

  /** The address a span's unknown peer is looked up by. */
  function PeerAddress(env: Env, directory: Directory, p: Pending): Option<string> {
    var names := directory.names(p);
    match p.kind
    case Server | Consumer =>
      var address := ClientAddress(p.span);
      if address != "" && names.client == address then Some(address) else None
    case Client | Producer =>
      var address := ServerAddress(env, p.span);
      if address != "" && names.server == address then Some(address) else None
    case _ => None
  }

  /** The names of a span depend on the memory by what its lookup finds. */
  lemma NamesByLookup(env: Env, directory: Directory, m: Recent.Memory, m': Recent.Memory, p: Pending, now: Instant)
    ensures PeerAddress(env, directory, p) == None ==> NamesOf(env, directory, m, p, now) == NamesOf(env, directory, m', p, now)
    ensures PeerAddress(env, directory, p).Some? ==>
              var found, found' := Recent.Found(env.net, m, PeerAddress(env, directory, p).value, now),
                                   Recent.Found(env.net, m', PeerAddress(env, directory, p).value, now);
              && (found == found' ==> NamesOf(env, directory, m, p, now) == NamesOf(env, directory, m', p, now))
              && (found.Some? && found'.Some? && found != found' ==>
                    NamesOf(env, directory, m, p, now) != NamesOf(env, directory, m', p, now))
  {
  }

  /** The memory a batch leaves. */
  function MemoryAfter(env: Env, directory: Directory, h: seq<Recent.Record>, ps: seq<Pending>, now: Instant): Recent.Memory {
    Recent.Run(env.net, h + Lessons(env, directory, ps, now))
  }

  /** In every order of the batch each span gets the same names. */
  ghost predicate SameNames(env: Env, directory: Directory, h: seq<Recent.Record>, ps: seq<Pending>, now: Instant) {
    forall qs, p | multiset(qs) == multiset(ps) && p in ps ::
      NamesOf(env, directory, MemoryAfter(env, directory, h, qs, now), p, now)
      == NamesOf(env, directory, MemoryAfter(env, directory, h, ps, now), p, now)
  }

  /** The peer of a span is looked up where lessons of the batch contest. */
  ghost predicate PeerContested(env: Env, directory: Directory, h: seq<Recent.Record>, ps: seq<Pending>, now: Instant, p: Pending) {
    match PeerAddress(env, directory, p)
    case None => false
    case Some(address) => LookupContested(env.net, Recent.Run(env.net, h), Lessons(env, directory, ps, now), address, now)
  }

  ghost predicate NoPeerContested(env: Env, directory: Directory, h: seq<Recent.Record>, ps: seq<Pending>, now: Instant) {
    forall p :: p in ps ==> !PeerContested(env, directory, h, ps, now, p)
  }

  lemma {:induction false} LessonsFront(env: Env, directory: Directory, p: Pending, rest: seq<Pending>, now: Instant)
    ensures Lessons(env, directory, [p] + rest, now) == LessonOf(env, directory, p, now) + Lessons(env, directory, rest, now)
  {
    var ps := [p] + rest;
    if rest == [] {
      assert ps[..0] == [] && ps[0] == p;
    } else {
      assert ps[..|ps| - 1] == [p] + rest[..|rest| - 1];
      LessonsFront(env, directory, p, rest[..|rest| - 1], now);
    }
  }

  lemma ToFront(ps: seq<Pending>, p: Pending) returns (rest: seq<Pending>)
    requires p in ps
    ensures multiset([p] + rest) == multiset(ps)
  {
    var i :| 0 <= i < |ps| && ps[i] == p;
    rest := ps[..i] + ps[i + 1..];
    assert ps == ps[..i] + [p] + ps[i + 1..];
  }

  /** With the span that teaches it in front, a contested lookup finds a lesson's application. */
  lemma TaughtFirst(env: Env, directory: Directory, h: seq<Recent.Record>, ps: seq<Pending>, now: Instant,
                    address: string, r: Recent.Record)
    returns (qs: seq<Pending>)
    requires var m, ls := Recent.Run(env.net, h), Lessons(env, directory, ps, now);
             var listen := ListenAfter(env.net, m, ls, address, now);
             var key := if listen then address else Recent.Host(env.net, address);
             Learnable(m, key, listen, now) && r in ls && Recent.Claims(env.net, r, key, listen)
    ensures multiset(qs) == multiset(ps)
    ensures Recent.Found(env.net, MemoryAfter(env, directory, h, qs, now), address, now) == Some(r.known.application)
  {
    LessonsAreOfSpans(env, directory, ps, now, r);
    var p :| p in ps && Lesson(env, directory, p, now) == Some(r);
    var rest := ToFront(ps, p);
    qs := [p] + rest;
    SameLessons(env, directory, ps, qs, now);
    LessonsFront(env, directory, p, rest, now);
    SameElementsSame(env.net, Recent.Run(env.net, h), Lessons(env, directory, ps, now), Lessons(env, directory, qs, now),
                     address, now);
    FrontIsFound(env.net, h, r, Lessons(env, directory, rest, now), address, now);
  }

  /** Two orders in which the lookup of a span finds different applications. */
  lemma FoundDiffers(env: Env, directory: Directory, h: seq<Recent.Record>, ps: seq<Pending>, qs: seq<Pending>, qs': seq<Pending>,
                     now: Instant, p: Pending)
    requires p in ps && PeerAddress(env, directory, p).Some? && multiset(qs) == multiset(ps) && multiset(qs') == multiset(ps)
    requires var address := PeerAddress(env, directory, p).value;
             var found, found' := Recent.Found(env.net, MemoryAfter(env, directory, h, qs, now), address, now),
                                  Recent.Found(env.net, MemoryAfter(env, directory, h, qs', now), address, now);
             found.Some? && found'.Some? && found != found'
    ensures !SameNames(env, directory, h, ps, now)
  {
    var m, m' := MemoryAfter(env, directory, h, qs, now), MemoryAfter(env, directory, h, qs', now);
    NamesByLookup(env, directory, m, m', p, now);
    assert NamesOf(env, directory, m, p, now) != NamesOf(env, directory, m', p, now);
  }

  /** Two lessons that contest the entry a lookup of address is decided by. */
  lemma Contestants(net: Recent.Net, m: Recent.Memory, ls: seq<Recent.Record>, address: string, now: Instant)
    returns (r: Recent.Record, r': Recent.Record)
    requires LookupContested(net, m, ls, address, now) && OneMoment(ls, now)
    ensures r in ls && r' in ls && r.known.application != r'.known.application
    ensures var listen := ListenAfter(net, m, ls, address, now);
            var key := if listen then address else Recent.Host(net, address);
            Learnable(m, key, listen, now) && Recent.Claims(net, r, key, listen) && Recent.Claims(net, r', key, listen)
  {
    var listen := ListenAfter(net, m, ls, address, now);
    var key := if listen then address else Recent.Host(net, address);
    assert Contested(net, m, ls, key, listen, now);
    r, r' :| r in ls && r' in ls && Recent.Claims(net, r, key, listen) && Recent.Claims(net, r', key, listen)
             && r.known != r'.known;
  }

  /** A contested lookup names a span by which of two lessons comes first. */
  lemma ContestedMatters(env: Env, directory: Directory, h: seq<Recent.Record>, ps: seq<Pending>, now: Instant, p: Pending)
    requires p in ps && PeerContested(env, directory, h, ps, now, p)
    ensures !SameNames(env, directory, h, ps, now)
  {
    var m, ls, address := Recent.Run(env.net, h), Lessons(env, directory, ps, now), PeerAddress(env, directory, p).value;
    SameLessons(env, directory, ps, ps, now);
    var r, r' := Contestants(env.net, m, ls, address, now);
    var qs := TaughtFirst(env, directory, h, ps, now, address, r);
    var qs' := TaughtFirst(env, directory, h, ps, now, address, r');
    FoundDiffers(env, directory, h, ps, qs, qs', now, p);
  }

  /** A write names the spans of a batch alike in every order if and only if no peer is looked up where
      two lessons of the batch, learnable there, are for different applications. */
  lemma NamingIgnoresOrderIff(env: Env, directory: Directory, h: seq<Recent.Record>, ps: seq<Pending>, now: Instant)
    ensures SameNames(env, directory, h, ps, now) <==> NoPeerContested(env, directory, h, ps, now)
  {
    if NoPeerContested(env, directory, h, ps, now) {
      forall qs, p | multiset(qs) == multiset(ps) && p in ps
        ensures NamesOf(env, directory, MemoryAfter(env, directory, h, qs, now), p, now)
                == NamesOf(env, directory, MemoryAfter(env, directory, h, ps, now), p, now)
      {
        UncontestedName(env, directory, h, ps, qs, now, p);
      }
    }
    if p :| p in ps && PeerContested(env, directory, h, ps, now, p) {
      ContestedMatters(env, directory, h, ps, now, p);
    }
  }

  lemma UncontestedName(env: Env, directory: Directory, h: seq<Recent.Record>, ps: seq<Pending>, qs: seq<Pending>,
                        now: Instant, p: Pending)
    requires multiset(ps) == multiset(qs) && p in ps && NoPeerContested(env, directory, h, ps, now)
    ensures NamesOf(env, directory, MemoryAfter(env, directory, h, qs, now), p, now)
            == NamesOf(env, directory, MemoryAfter(env, directory, h, ps, now), p, now)
  {
    SameLessons(env, directory, ps, qs, now);
    if PeerAddress(env, directory, p).Some? {
      SameFoundUnlessContested(env.net, h, Lessons(env, directory, ps, now), Lessons(env, directory, qs, now),
                               PeerAddress(env, directory, p).value, now);
    }
    NamesByLookup(env, directory, MemoryAfter(env, directory, h, qs, now), MemoryAfter(env, directory, h, ps, now), p, now);
  }

  const IP: string := "10.0.0.1"

  /** A client span an agent recorded, from IP. */
  function ClientAt(service: string): Pending {
    Pending(service, Client, true, "http", map[], map["network.local.address" := IP])
  }

  /** A server span whose peer is known by IP only. */
  function ServedTo(): Pending {
    Pending("c", Server, false, "http", map[], map["client.address" := IP])
  }

  /** It happens: the clients of two spans are different applications at one IP, and which of the two
      comes first names the peer of the third span. */
  lemma NameDependsOnOrder(env: Env, directory: Directory, now: Instant)
    requires env.net.splitHost(IP) == None && env.net.networkIp(IP) && directory.nodeIps == Some({})
    requires directory.names(ClientAt("a")).client == "ns/a" && directory.names(ClientAt("b")).client == "ns/b"
    requires directory.names(ServedTo()).client == IP
    ensures !SameNames(env, directory, [], [ClientAt("a"), ClientAt("b"), ServedTo()], now)
  {
    var a, b, c := ClientAt("a"), ClientAt("b"), ServedTo();
    var ps := [a, b, c];
    var ls := Lessons(env, directory, ps, now);
    var r := Recent.Record(directory.nodeIps, IP, Recent.Known("ns/a", now), now);
    var r' := Recent.Record(directory.nodeIps, IP, Recent.Known("ns/b", now), now);
    LessonAtIp(env, directory, a, now);
    LessonAtIp(env, directory, b, now);
    assert a in ps && b in ps && c in ps;
    LessonsAreOfSpans(env, directory, ps, now, r);
    LessonsAreOfSpans(env, directory, ps, now, r');
    ClaimsAtIp(env, r, "ns/a");
    ClaimsAtIp(env, r', "ns/b");
    assert Contested(env.net, Recent.EMPTY, ls, IP, false, now);
    assert !ListenAfter(env.net, Recent.EMPTY, ls, IP, now);
    PeerAtIp(env, directory);
    ContestedMatters(env, directory, [], ps, now, c);
  }

  lemma LessonAtIp(env: Env, directory: Directory, p: Pending, now: Instant)
    requires p == ClientAt(p.serviceName)
    ensures Lesson(env, directory, p, now)
            == Some(Recent.Record(directory.nodeIps, IP, Recent.Known(directory.names(p).client, now), now))
  {
  }

  lemma ClaimsAtIp(env: Env, r: Recent.Record, application: string)
    requires env.net.splitHost(IP) == None && env.net.networkIp(IP)
    requires r.nodeIps == Some({}) && r.address == IP && r.known.application == application && Recent.Namespaced(application)
    ensures Recent.Claims(env.net, r, IP, false)
  {
  }

  lemma PeerAtIp(env: Env, directory: Directory)
    requires directory.names(ServedTo()).client == IP
    ensures PeerAddress(env, directory, ServedTo()) == Some(IP)
  {
  }

  // ----- what a lesson is for -----

  /** A client span the agent recorded in a pod names the peer of the server and consumer spans that only tell
      the pod's IP: their client becomes the application of that pod, and nothing else of them changes. */
  lemma ClientNamesPeer(env: Env, directory: Directory, a: Pending, rest: seq<Pending>, b: Pending, ip: string, now: Instant)
    requires a.fromAgent && a.kind == Client && Attr(a.span, "network.local.address") == ip != ""
    requires env.net.splitHost(ip) == None && env.net.networkIp(ip)
    requires directory.nodeIps.Some? && ip !in directory.nodeIps.value && Recent.Namespaced(directory.names(a).client)
    requires b.kind in {Server, Consumer} && Attr(b.span, "client.address") == ip && directory.names(b).client == ip
    ensures NamesOf(env, directory, MemoryAfter(env, directory, [], [a] + rest, now), b, now)
            == Names(directory.names(a).client, directory.names(b).server)
  {
    var r := Recent.Record(directory.nodeIps, ip, Recent.Known(directory.names(a).client, now), now);
    assert Lesson(env, directory, a, now) == Some(r);
    assert Recent.Claims(env.net, r, ip, false);
    TaughtInFront(env, directory, a, rest, r, ip, false, now);
    assert ClientAddress(b.span) == ip;
  }

  /** A server span the agent recorded names the peer of the client and producer spans that only tell where they went. */
  lemma ServerNamesPeer(env: Env, directory: Directory, a: Pending, rest: seq<Pending>, b: Pending,
                        host: string, port: string, now: Instant)
    requires a.fromAgent && a.kind == Server && Attr(a.span, "server.address") == host != "" && Attr(a.span, "server.port") == port != ""
    requires env.net.splitHost(env.net.joinHostPort(host, port)) == Some(host) && env.net.networkIp(host)
    requires Recent.Namespaced(directory.names(a).server) && env.net.joinHostPort(host, port) != ""
    requires b.kind in {Client, Producer} && Attr(b.span, "server.address") == host && Attr(b.span, "server.port") == port
    requires directory.names(b).server == env.net.joinHostPort(host, port)
    ensures NamesOf(env, directory, MemoryAfter(env, directory, [], [a] + rest, now), b, now)
            == Names(directory.names(b).client, directory.names(a).server)
  {
    var address := env.net.joinHostPort(host, port);
    var r := Recent.Record(directory.nodeIps, address, Recent.Known(directory.names(a).server, now), now);
    assert Lesson(env, directory, a, now) == Some(r);
    assert Recent.Claims(env.net, r, address, true);
    TaughtInFront(env, directory, a, rest, r, address, true, now);
    assert ServerAddress(env, b.span) == address;
  }

  /** The first lesson of all is what a lookup of its address finds. */
  lemma TaughtInFront(env: Env, directory: Directory, a: Pending, rest: seq<Pending>, r: Recent.Record, address: string, listen: bool, now: Instant)
    requires Lesson(env, directory, a, now) == Some(r) && r.address == address && Recent.Claims(env.net, r, address, listen)
    requires listen <==> Recent.IsListen(env.net, address)
    ensures Recent.Found(env.net, MemoryAfter(env, directory, [], [a] + rest, now), address, now) == Some(r.known.application)
  {
    SameLessons(env, directory, [a] + rest, [a] + rest, now);
    LessonsFront(env, directory, a, rest, now);
    var ls := [r] + Lessons(env, directory, rest, now);
    assert Lessons(env, directory, [a] + rest, now) == ls;
    assert r in ls;
    assert ListenAfter(env.net, Recent.EMPTY, ls, address, now) == listen;
    FrontIsFound(env.net, [], r, Lessons(env, directory, rest, now), address, now);
  }

  lemma {:induction false} FirstOfIs(attrs: Attrs, keys: seq<string>, i: nat)
    requires i < |keys| && Attr(attrs, keys[i]) != "" && forall j :: 0 <= j < i ==> Attr(attrs, keys[j]) == ""
    ensures FirstOf(attrs, keys) == Attr(attrs, keys[i])
  {
    if i > 0 {
      FirstOfIs(attrs, keys[1..], i - 1);
    }
  }

  /** The address of a server span's peer is that of the first of four attributes that it has. */
  lemma ClientAddressIs(attrs: Attrs, i: nat)
    requires var keys := ["client.address", "net.sock.peer.addr", "net.peer.ip", "http.client_ip"];
             i < 4 && Attr(attrs, keys[i]) != "" && forall j :: 0 <= j < i ==> Attr(attrs, keys[j]) == ""
    ensures ClientAddress(attrs) == Attr(attrs, ["client.address", "net.sock.peer.addr", "net.peer.ip", "http.client_ip"][i])
  {
    FirstOfIs(attrs, ["client.address", "net.sock.peer.addr", "net.peer.ip", "http.client_ip"], i);
  }

  // ----- the memory after a batch -----

  lemma SameEntries(book: Recent.Book, book': Recent.Book)
    requires forall key :: Recent.Entry(book, key) == Recent.Entry(book', key)
    ensures book == book'
  {
    forall key ensures key in book <==> key in book' ensures key in book && key in book' ==> book[key] == book'[key] {
      assert Recent.Entry(book, key) == Recent.Entry(book', key);
    }
  }

  /** With nothing contested a batch leaves the same addresses learned, and the same names, in any order. */
  lemma {:induction false} NamingIgnoresOrder(env: Env, directory: Directory, h: seq<Recent.Record>,
                                              ps: seq<Pending>, qs: seq<Pending>, now: Instant)
    requires multiset(ps) == multiset(qs)
    requires forall key, listen :: !Contested(env.net, Recent.Run(env.net, h), Lessons(env, directory, ps, now), key, listen, now)
    ensures MemoryAfter(env, directory, h, ps, now) == MemoryAfter(env, directory, h, qs, now)
    ensures forall i, j :: 0 <= i < |ps| && 0 <= j < |qs| && ps[i] == qs[j] ==>
              BatchNames(env, directory, h, ps, now)[i] == BatchNames(env, directory, h, qs, now)[j]
  {
    var ls, ls' := Lessons(env, directory, ps, now), Lessons(env, directory, qs, now);
    SameLessons(env, directory, ps, qs, now);
    var a, b := Recent.Run(env.net, h + ls), Recent.Run(env.net, h + ls');
    forall key, listen: bool ensures Recent.Entry(Recent.Page(a, listen), key) == Recent.Entry(Recent.Page(b, listen), key) {
      SameEntryUnlessContested(env.net, h, ls, ls', now, key, listen);
    }
    SameEntryUnlessContested(env.net, h, ls, ls', now, "", true);
    forall key ensures Recent.Entry(a.byListen, key) == Recent.Entry(b.byListen, key) {
      assert Recent.Entry(Recent.Page(a, true), key) == Recent.Entry(Recent.Page(b, true), key);
    }
    forall key ensures Recent.Entry(a.byIp, key) == Recent.Entry(b.byIp, key) {
      assert Recent.Entry(Recent.Page(a, false), key) == Recent.Entry(Recent.Page(b, false), key);
    }
    SameEntries(a.byListen, b.byListen);
    SameEntries(a.byIp, b.byIp);
  }

  lemma {:induction false} SameLessons(env: Env, directory: Directory, ps: seq<Pending>, qs: seq<Pending>, now: Instant)
    requires multiset(ps) == multiset(qs)
    ensures forall r :: r in Lessons(env, directory, ps, now) ==> r.clock == now && r.known.seen == now
    ensures forall r :: r in Lessons(env, directory, ps, now) <==> r in Lessons(env, directory, qs, now)
  {
    forall p: Pending ensures p in ps <==> p in qs {
      assert p in ps <==> p in multiset(ps);
      assert p in qs <==> p in multiset(qs);
    }
    forall r ensures r in Lessons(env, directory, ps, now) <==> r in Lessons(env, directory, qs, now)
             ensures r in Lessons(env, directory, ps, now) ==> r.clock == now && r.known.seen == now
    {
      LessonsAreOfSpans(env, directory, ps, now, r);
      LessonsAreOfSpans(env, directory, qs, now, r);
    }
  }
}
