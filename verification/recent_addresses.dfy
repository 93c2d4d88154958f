/** collector/recent_addresses.go: addresses learned from spans.

    Records arrive in any order and repeatedly, from the collector's own spans and from the rows
    of every replica, and stale ones are forgotten now and then. The memory is run on its whole
    history; what it answers about an IP is shown to be the latest record of the history. */
module RecentAddresses {
  import opened Prelude

  // Older addresses are not answered with.
  const RECENT_ADDRESS_MEMORY: int := 10 * MINUTE

  /** What Go's net package tells of an address: splitHost is the host of net.SplitHostPort (None
      when it fails), networkIp that a string parses as an IP that is no loopback, unspecified or
      link-local one, joinHostPort is net.JoinHostPort. */
  datatype Net = Net(splitHost: string -> Option<string>,
                     networkIp: string -> bool,
                     joinHostPort: (string, string) -> string)

  function Host(net: Net, address: string): string {
    match net.splitHost(address)
    case Some(host) => host
    case None => address
  }

  predicate IsListen(net: Net, address: string) {
    net.splitHost(address).Some?
  }

  datatype Known = Known(application: string, seen: Instant)

  type Book = map<string, Known>

  datatype Memory = Memory(byListen: Book, byIp: Book, lastPrune: int)

  const EMPTY: Memory := Memory(map[], map[], ZERO_TIME)

  /** One call of record: nodeIps are those of the directory (None without one), clock is when. */
  datatype Record = Record(nodeIps: Option<set<string>>, address: string, known: Known, clock: Instant)

  /** An application of a namespace: namespace/name. */
  predicate Namespaced(application: string) {
    '/' in application && application[0] != '/'
  }

  predicate Accepted(net: Net, r: Record) {
    Namespaced(r.known.application) && net.networkIp(Host(net, r.address))
  }

  predicate Fresh(known: Known, now: Instant) {
    now - known.seen < RECENT_ADDRESS_MEMORY
  }

  function Kept(book: Book, now: Instant): Book {
    map address | address in book && Fresh(book[address], now) :: book[address]
  }

  predicate PruneDue(m: Memory, now: Instant) {
    now - m.lastPrune >= RECENT_ADDRESS_MEMORY
  }

  function Pruned(m: Memory, now: Instant): Memory {
    Memory(Kept(m.byListen, now), Kept(m.byIp, now), now)
  }

  function Put(book: Book, key: string, known: Known): Book {
    if key !in book || known.seen > book[key].seen then book[key := known] else book
  }

  predicate TellsListen(net: Net, r: Record) {
    IsListen(net, r.address)
  }

  predicate TellsIp(net: Net, r: Record) {
    r.nodeIps.Some? && Host(net, r.address) !in r.nodeIps.value
  }

  /** One call of record, with a prune before it or not. */
  function Step(net: Net, m: Memory, r: Record, prune: bool): Memory {
    if !Accepted(net, r) then m
    else
      var p := if prune then Pruned(m, r.clock) else m;
      Memory(
        if TellsListen(net, r) then Put(p.byListen, r.address, r.known) else p.byListen,
        if TellsIp(net, r) then Put(p.byIp, Host(net, r.address), r.known) else p.byIp,
        p.lastPrune)
  }

  function RunPruning(net: Net, h: seq<Record>, prunes: nat -> bool): Memory {
    if h == [] then EMPTY
    else Step(net, RunPruning(net, h[..|h| - 1], prunes), h[|h| - 1], prunes(|h| - 1))
  }

  function Run(net: Net, h: seq<Record>): Memory {
    if h == [] then EMPTY
    else
      var m := Run(net, h[..|h| - 1]);
      Step(net, m, h[|h| - 1], PruneDue(m, h[|h| - 1].clock))
  }

  /** Whose an address is: an entry by ip:port decides, even a stale one. */
  function Found(net: Net, m: Memory, address: string, now: Instant): Option<string> {
    if address in m.byListen then
      if Fresh(m.byListen[address], now) then Some(m.byListen[address].application) else None
    else FoundIp(m, Host(net, address), now)
  }

  function FoundIp(m: Memory, ip: string, now: Instant): Option<string> {
    if ip in m.byIp && Fresh(m.byIp[ip], now) then Some(m.byIp[ip].application) else None
  }

  function FreshIps(m: Memory, now: Instant): set<string> {
    set ip | ip in m.byIp && Fresh(m.byIp[ip], now)
  }

  // ----- the specification: a statement about the history -----

  /** The two books: what a record claims, for an ip:port or for an IP. */
  predicate Claims(net: Net, r: Record, key: string, listen: bool) {
    && Accepted(net, r)
    && (if listen then TellsListen(net, r) && r.address == key
        else TellsIp(net, r) && Host(net, r.address) == key)
  }

  ghost predicate Claimed(net: Net, h: seq<Record>, key: string, listen: bool, known: Known) {
    exists i :: 0 <= i < |h| && Claims(net, h[i], key, listen) && h[i].known == known
  }

  /** The latest claim of the history; of several with one time, the first. */
  ghost predicate LatestClaim(net: Net, h: seq<Record>, key: string, listen: bool, i: nat) {
    && i < |h| && Claims(net, h[i], key, listen)
    && (forall j :: 0 <= j < |h| && Claims(net, h[j], key, listen) ==> h[j].known.seen <= h[i].known.seen)
    && (forall j :: 0 <= j < i && Claims(net, h[j], key, listen) ==> h[j].known.seen < h[i].known.seen)
  }

  /** The application of the latest claim is application and the claim is fresh. */
  ghost predicate LatestIs(net: Net, h: seq<Record>, key: string, listen: bool, now: Instant, application: string) {
    exists i: nat :: LatestClaim(net, h, key, listen, i) && Fresh(h[i].known, now) && h[i].known.application == application
  }

  ghost predicate Monotone(h: seq<Record>) {
    forall i, j :: 0 <= i < j < |h| ==> h[i].clock <= h[j].clock
  }

  ghost predicate NotAfter(h: seq<Record>, now: Instant) {
    forall i :: 0 <= i < |h| ==> h[i].clock <= now
  }

  // ----- the memory agrees with the history -----

  function Page(m: Memory, listen: bool): Book {
    if listen then m.byListen else m.byIp
  }

  function Entry(book: Book, key: string): Option<Known> {
    if key in book then Some(book[key]) else None
  }

  /** The claim an entry came from; no earlier claim has its time while it is fresh. */
  ghost predicate CameFrom(net: Net, h: seq<Record>, key: string, listen: bool, clock: int, known: Known, i: nat) {
    && i < |h| && Claims(net, h[i], key, listen) && h[i].known == known
    && (clock - known.seen < RECENT_ADDRESS_MEMORY ==>
          forall j :: 0 <= j < i && Claims(net, h[j], key, listen) ==> h[j].known.seen < known.seen)
  }

  /** A claim is covered by the entry, or stale. */
  predicate Covered(entry: Option<Known>, seen: Instant, clock: int) {
    (entry.Some? && seen <= entry.value.seen) || clock - seen >= RECENT_ADDRESS_MEMORY
  }

  ghost predicate Agrees(net: Net, entry: Option<Known>, h: seq<Record>, key: string, listen: bool, clock: int) {
    && (entry.Some? ==> exists i: nat :: CameFrom(net, h, key, listen, clock, entry.value, i))
    && (forall j :: 0 <= j < |h| && Claims(net, h[j], key, listen) ==> Covered(entry, h[j].known.seen, clock))
  }

  /** What a prune and a call leave at one key of a book. */
  lemma StepAtKey(net: Net, m: Memory, r: Record, prune: bool, key: string, listen: bool)
    ensures var entry := Entry(Page(m, listen), key);
            var kept := if Accepted(net, r) && prune && entry.Some? && !Fresh(entry.value, r.clock) then None else entry;
            Entry(Page(Step(net, m, r, prune), listen), key)
            == if Claims(net, r, key, listen) && (kept == None || r.known.seen > kept.value.seen) then Some(r.known) else kept
  {
  }

  function Clock(h: seq<Record>): int {
    if h == [] then ZERO_TIME else h[|h| - 1].clock
  }

  /** A call that leaves entry where was stood: was, forgotten if it is stale, or a later claim. */
  ghost predicate Updated(net: Net, was: Option<Known>, entry: Option<Known>, r: Record, key: string, listen: bool) {
    var kept := if was.Some? && !Fresh(was.value, r.clock) && entry != was then None else was;
    if Claims(net, r, key, listen) && (kept == None || r.known.seen > kept.value.seen) then entry == Some(r.known)
    else entry == kept
  }

  lemma UpdateKeepsOrigin(net: Net, was: Option<Known>, entry: Option<Known>, h: seq<Record>, key: string, listen: bool)
    requires Monotone(h) && h != []
    requires Agrees(net, was, h[..|h| - 1], key, listen, Clock(h[..|h| - 1]))
    requires Updated(net, was, entry, h[|h| - 1], key, listen) && entry.Some?
    ensures exists i: nat :: CameFrom(net, h, key, listen, Clock(h), entry.value, i)
  {
    var before, r, n := h[..|h| - 1], h[|h| - 1], |h| - 1;
    assert forall j :: 0 <= j < n ==> h[j] == before[j];
    assert Clock(before) <= r.clock;
    if entry == was {
      var i: nat :| CameFrom(net, before, key, listen, Clock(before), was.value, i);
      assert CameFrom(net, h, key, listen, Clock(h), entry.value, i);
    } else {
      assert entry == Some(r.known) && Claims(net, r, key, listen);
      if Fresh(r.known, r.clock) {
        forall j | 0 <= j < n && Claims(net, h[j], key, listen) ensures h[j].known.seen < r.known.seen {
          assert Covered(was, before[j].known.seen, Clock(before));
        }
      }
      assert CameFrom(net, h, key, listen, Clock(h), entry.value, n);
    }
  }

  lemma UpdateKeepsCover(net: Net, was: Option<Known>, entry: Option<Known>, h: seq<Record>, key: string, listen: bool)
    requires Monotone(h) && h != []
    requires Agrees(net, was, h[..|h| - 1], key, listen, Clock(h[..|h| - 1]))
    requires Updated(net, was, entry, h[|h| - 1], key, listen)
    ensures forall j :: 0 <= j < |h| && Claims(net, h[j], key, listen) ==> Covered(entry, h[j].known.seen, Clock(h))
  {
    var before, r := h[..|h| - 1], h[|h| - 1];
    assert Clock(before) <= r.clock;
    forall j | 0 <= j < |h| && Claims(net, h[j], key, listen) ensures Covered(entry, h[j].known.seen, r.clock) {
      if j < |before| {
        assert h[j] == before[j];
        assert Covered(was, before[j].known.seen, Clock(before));
      }
    }
  }

  lemma {:induction false} RunAgrees(net: Net, h: seq<Record>, prunes: nat -> bool, key: string, listen: bool)
    requires Monotone(h)
    ensures Agrees(net, Entry(Page(RunPruning(net, h, prunes), listen), key), h, key, listen, Clock(h))
  {
    if h == [] {
      return;
    }
    var before, r := h[..|h| - 1], h[|h| - 1];
    RunAgrees(net, before, prunes, key, listen);
    var m := RunPruning(net, before, prunes);
    StepAtKey(net, m, r, prunes(|h| - 1), key, listen);
    var was, entry := Entry(Page(m, listen), key), Entry(Page(RunPruning(net, h, prunes), listen), key);
    assert Updated(net, was, entry, r, key, listen);
    UpdateKeepsCover(net, was, entry, h, key, listen);
    if entry.Some? {
      UpdateKeepsOrigin(net, was, entry, h, key, listen);
    }
  }

  lemma LatestIsOne(net: Net, h: seq<Record>, key: string, listen: bool, i: nat, k: nat)
    requires LatestClaim(net, h, key, listen, i) && LatestClaim(net, h, key, listen, k)
    ensures i == k
  {
  }

  /** A fresh entry that agrees with the history is its latest claim. */
  lemma FreshIsClaim(net: Net, h: seq<Record>, known: Known, key: string, listen: bool, now: Instant) returns (i: nat)
    requires Monotone(h) && NotAfter(h, now) && Agrees(net, Some(known), h, key, listen, Clock(h)) && Fresh(known, now)
    ensures LatestClaim(net, h, key, listen, i) && h[i].known == known
  {
    i :| CameFrom(net, h, key, listen, Clock(h), known, i);
  }

  /** The latest claim, if it is fresh, is the entry. */
  lemma FreshClaimIsEntry(net: Net, h: seq<Record>, entry: Option<Known>, key: string, listen: bool, now: Instant, i: nat)
    requires Monotone(h) && NotAfter(h, now) && Agrees(net, entry, h, key, listen, Clock(h))
    requires LatestClaim(net, h, key, listen, i) && Fresh(h[i].known, now)
    ensures entry == Some(h[i].known)
  {
    assert Covered(entry, h[i].known.seen, Clock(h));
    var k := FreshIsClaim(net, h, entry.value, key, listen, now);
    LatestIsOne(net, h, key, listen, i, k);
  }

  /** A fresh entry of a book is the latest claim of the history, and the other way round. */
  lemma {:induction false} FreshEntryIsLatest(net: Net, h: seq<Record>, prunes: nat -> bool, key: string, listen: bool, now: Instant, application: string)
    requires Monotone(h) && NotAfter(h, now)
    ensures var book := Page(RunPruning(net, h, prunes), listen);
            key in book && Fresh(book[key], now) && book[key].application == application
            <==> LatestIs(net, h, key, listen, now, application)
  {
    RunAgrees(net, h, prunes, key, listen);
    var book := Page(RunPruning(net, h, prunes), listen);
    if key in book && Fresh(book[key], now) {
      var i := FreshIsClaim(net, h, book[key], key, listen, now);
    }
    if i: nat :| LatestClaim(net, h, key, listen, i) && Fresh(h[i].known, now) && h[i].known.application == application {
      FreshClaimIsEntry(net, h, Entry(book, key), key, listen, now, i);
    }
  }

  function CodeSchedule(net: Net, h: seq<Record>): nat -> bool {
    (i: nat) => i < |h| && PruneDue(Run(net, h[..i]), h[i].clock)
  }

  lemma {:induction false} CodeIsOneSchedule(net: Net, h: seq<Record>, n: nat)
    requires n <= |h|
    ensures RunPruning(net, h[..n], CodeSchedule(net, h)) == Run(net, h[..n])
  {
    if n > 0 {
      CodeIsOneSchedule(net, h, n - 1);
      assert h[..n][..n - 1] == h[..n - 1];
    }
  }

  lemma {:induction false} RunIsPruning(net: Net, h: seq<Record>)
    ensures RunPruning(net, h, CodeSchedule(net, h)) == Run(net, h)
  {
    CodeIsOneSchedule(net, h, |h|);
    assert h[..|h|] == h;
  }

  /** An IP is named by the latest record of the history that is fresh, whenever prunes ran. */
  lemma IpIsLatestRecord(net: Net, h: seq<Record>, prunes: nat -> bool, ip: string, now: Instant, application: string)
    requires Monotone(h) && NotAfter(h, now)
    ensures FoundIp(RunPruning(net, h, prunes), ip, now) == Some(application) <==> LatestIs(net, h, ip, false, now, application)
    ensures FoundIp(Run(net, h), ip, now) == Some(application) <==> LatestIs(net, h, ip, false, now, application)
  {
    FreshEntryIsLatest(net, h, prunes, ip, false, now, application);
    FreshEntryIsLatest(net, h, CodeSchedule(net, h), ip, false, now, application);
    RunIsPruning(net, h);
  }

  /** A plain IP never has an ip:port entry, so lookup asks the book of the IPs. */
  lemma {:induction false} ListensSplit(net: Net, h: seq<Record>, address: string)
    requires address in Run(net, h).byListen
    ensures IsListen(net, address)
  {
    if address !in Run(net, h[..|h| - 1]).byListen {
      assert TellsListen(net, h[|h| - 1]);
    } else {
      ListensSplit(net, h[..|h| - 1], address);
    }
  }

  /** lookup of a plain IP: the application of the latest accepted record, if it is fresh. */
  lemma {:induction false} PlainIpLookup(net: Net, h: seq<Record>, ip: string, now: Instant, application: string)
    requires Monotone(h) && NotAfter(h, now)
    requires !IsListen(net, ip)
    ensures Found(net, Run(net, h), ip, now) == Some(application) <==> LatestIs(net, h, ip, false, now, application)
  {
    if ip in Run(net, h).byListen {
      ListensSplit(net, h, ip);
    }
    IpIsLatestRecord(net, h, (i: nat) => false, ip, now, application);
  }

  /** The IPs a Traced view asks for are exactly the ones with a fresh claim. */
  lemma {:induction false} ClientsAreFreshClaims(net: Net, h: seq<Record>, ip: string, now: Instant)
    requires Monotone(h) && NotAfter(h, now)
    ensures ip in FreshIps(Run(net, h), now)
            <==> exists i :: 0 <= i < |h| && Claims(net, h[i], ip, false) && Fresh(h[i].known, now)
  {
    RunAgrees(net, h, CodeSchedule(net, h), ip, false);
    RunIsPruning(net, h);
  }

  /** No two claims of one time name different applications. */
  ghost predicate NoTies(net: Net, h: seq<Record>, key: string, listen: bool) {
    forall i, j :: 0 <= i < |h| && 0 <= j < |h| && Claims(net, h[i], key, listen) && Claims(net, h[j], key, listen) ==>
      h[i].known.seen == h[j].known.seen ==> h[i].known == h[j].known
  }

  /** The first claim that has the time of claim i. */
  lemma {:induction false} FirstOfItsTime(net: Net, h: seq<Record>, key: string, listen: bool, i: nat) returns (k: nat)
    requires i < |h| && Claims(net, h[i], key, listen)
    requires forall j :: 0 <= j < |h| && Claims(net, h[j], key, listen) ==> h[j].known.seen <= h[i].known.seen
    ensures LatestClaim(net, h, key, listen, k) && h[k].known.seen == h[i].known.seen
  {
    k := i;
    if j :| 0 <= j < i && Claims(net, h[j], key, listen) && h[j].known.seen >= h[i].known.seen {
      k := FirstOfItsTime(net, h, key, listen, j);
    }
  }

  lemma LatestDependsOnClaims(net: Net, h: seq<Record>, h': seq<Record>, key: string, listen: bool, now: Instant, application: string)
    requires NoTies(net, h, key, listen) && NoTies(net, h', key, listen)
    requires forall known :: Claimed(net, h, key, listen, known) <==> Claimed(net, h', key, listen, known)
    requires LatestIs(net, h, key, listen, now, application)
    ensures LatestIs(net, h', key, listen, now, application)
  {
    var i: nat :| LatestClaim(net, h, key, listen, i) && Fresh(h[i].known, now) && h[i].known.application == application;
    assert Claimed(net, h, key, listen, h[i].known);
    var j :| 0 <= j < |h'| && Claims(net, h'[j], key, listen) && h'[j].known == h[i].known;
    forall k | 0 <= k < |h'| && Claims(net, h'[k], key, listen)
      ensures h'[k].known.seen <= h'[j].known.seen
    {
      assert Claimed(net, h', key, listen, h'[k].known);
    }
    var first := FirstOfItsTime(net, h', key, listen, j);
  }

  /** The order and the repetition of records do not matter, nor do the clocks of the calls: the
      same claims name an IP alike. */
  lemma {:induction false} OrderDoesNotMatter(net: Net, h: seq<Record>, h': seq<Record>, ip: string, now: Instant)
    requires Monotone(h) && NotAfter(h, now) && Monotone(h') && NotAfter(h', now)
    requires NoTies(net, h, ip, false) && NoTies(net, h', ip, false)
    requires forall known :: Claimed(net, h, ip, false, known) <==> Claimed(net, h', ip, false, known)
    ensures FoundIp(Run(net, h), ip, now) == FoundIp(Run(net, h'), ip, now)
  {
    var never := (i: nat) => false;
    var a, b := FoundIp(Run(net, h), ip, now), FoundIp(Run(net, h'), ip, now);
    if a.Some? {
      IpIsLatestRecord(net, h, never, ip, now, a.value);
      LatestDependsOnClaims(net, h, h', ip, false, now, a.value);
      IpIsLatestRecord(net, h', never, ip, now, a.value);
    } else if b.Some? {
      IpIsLatestRecord(net, h', never, ip, now, b.value);
      LatestDependsOnClaims(net, h', h, ip, false, now, b.value);
      IpIsLatestRecord(net, h, never, ip, now, b.value);
    }
  }

  /** What is never learned: an entry of byIp is a pod's address of its network, recorded when a
      directory was there to tell that it is no node's. */
  lemma {:induction false} OnlyPodAddresses(net: Net, h: seq<Record>, ip: string)
    requires ip in Run(net, h).byIp
    ensures net.networkIp(ip) && Namespaced(Run(net, h).byIp[ip].application)
    ensures exists i :: 0 <= i < |h| && Host(net, h[i].address) == ip && h[i].known == Run(net, h).byIp[ip]
              && h[i].nodeIps.Some? && ip !in h[i].nodeIps.value
  {
    var before, r := h[..|h| - 1], h[|h| - 1];
    var m := Run(net, before);
    if ip in m.byIp && m.byIp[ip] == Run(net, h).byIp[ip] {
      OnlyPodAddresses(net, before, ip);
      var i :| 0 <= i < |before| && Host(net, before[i].address) == ip && before[i].known == m.byIp[ip]
        && before[i].nodeIps.Some? && ip !in before[i].nodeIps.value;
      assert h[i] == before[i];
    } else {
      assert h[|h| - 1] == r && Claims(net, r, ip, false);
    }
  }

  // ----- an ip:port: when a stale entry hides a fresh IP -----

  /** The name an address should have: its own fresh claim, or the one of its IP. */
  ghost predicate ShouldName(net: Net, h: seq<Record>, address: string, now: Instant, application: string) {
    LatestIs(net, h, address, true, now, application) ||
    ((forall other :: !LatestIs(net, h, address, true, now, other)) && LatestIs(net, h, Host(net, address), false, now, application))
  }

  /** A stale entry that is not pruned yet stands before a fresh IP. */
  predicate Hidden(net: Net, m: Memory, address: string, now: Instant) {
    && address in m.byListen && !Fresh(m.byListen[address], now)
    && FoundIp(m, Host(net, address), now).Some?
  }

  /** lookup of any address names what the history says exactly when no stale entry hides its IP. */
  lemma {:induction false} LookupMeaning(net: Net, h: seq<Record>, address: string, now: Instant)
    requires Monotone(h) && NotAfter(h, now)
    ensures (forall application :: Found(net, Run(net, h), address, now) == Some(application)
                                   <==> ShouldName(net, h, address, now, application))
            <==> !Hidden(net, Run(net, h), address, now)
  {
    var m := Run(net, h);
    RunIsPruning(net, h);
    forall application
      ensures LatestIs(net, h, address, true, now, application)
              <==> address in m.byListen && Fresh(m.byListen[address], now) && m.byListen[address].application == application
      ensures LatestIs(net, h, Host(net, address), false, now, application)
              <==> FoundIp(m, Host(net, address), now) == Some(application)
    {
      FreshEntryIsLatest(net, h, CodeSchedule(net, h), address, true, now, application);
      IpIsLatestRecord(net, h, CodeSchedule(net, h), Host(net, address), now, application);
    }
    if Hidden(net, m, address, now) {
      var application := FoundIp(m, Host(net, address), now).value;
      assert ShouldName(net, h, address, now, application);
      assert Found(net, m, address, now) == None;
    }
  }

  /** It happens: a pod was seen listening on 10.0.0.1:80, 9 minutes later a new pod has its IP, and
      2 minutes later the address is looked up. */
  lemma HidingHappens(net: Net, t: Instant, now: Instant)
    requires net.splitHost("10.0.0.1:80") == Some("10.0.0.1") && net.splitHost("10.0.0.1") == None
    requires net.networkIp("10.0.0.1") && now == t + 11 * MINUTE && t >= 10 * MINUTE
    ensures var h := [Record(Some({}), "10.0.0.1:80", Known("ns/old", t), t),
                      Record(Some({}), "10.0.0.1", Known("ns/new", t + 9 * MINUTE), t + 9 * MINUTE)];
            Monotone(h) && NotAfter(h, now) && Hidden(net, Run(net, h), "10.0.0.1:80", now)
  {
    var r := Record(Some({}), "10.0.0.1:80", Known("ns/old", t), t);
    var r' := Record(Some({}), "10.0.0.1", Known("ns/new", t + 9 * MINUTE), t + 9 * MINUTE);
    assert '/' == "ns/old"[2] && '/' == "ns/new"[2];
    var m := Step(net, EMPTY, r, true);
    assert [r, r'][..1] == [r] && [r][..0] == [];
    assert Run(net, [r]) == m;
    assert Run(net, [r, r']) == Step(net, m, r', false);
  }

  // ----- the object -----

  method Forget(book: Book, now: Instant) returns (kept: Book)
    ensures kept == Kept(book, now)
  {
    kept := book;
    var todo := book.Keys;
    while todo != {}
      invariant todo <= book.Keys
      invariant kept == map key | key in book && (key in todo || Fresh(book[key], now)) :: book[key]
      decreases todo
    {
      var key :| key in todo;
      if now - book[key].seen >= RECENT_ADDRESS_MEMORY {
        kept := kept - {key};
      }
      todo := todo - {key};
    }
  }

  class Addresses {
    const net: Net
    var byListen: Book
    var byIp: Book
    var lastPrune: int
    ghost var history: seq<Record>

    function Value(): Memory reads this {
      Memory(byListen, byIp, lastPrune)
    }

    ghost predicate Valid() reads this {
      Value() == Run(net, history)
    }

    constructor (net: Net)
      ensures Valid() && history == [] && this.net == net
    {
      this.net := net;
      byListen, byIp, lastPrune := map[], map[], ZERO_TIME;
      history := [];
    }

    method Prune(now: Instant)
      modifies this`byListen, this`byIp, this`lastPrune
      ensures Value() == if PruneDue(old(Value()), now) then Pruned(old(Value()), now) else old(Value())
    {
      if now - lastPrune < RECENT_ADDRESS_MEMORY {
        return;
      }
      lastPrune := now;
      byListen := Forget(byListen, now);
      byIp := Forget(byIp, now);
    }

    method RecordAddress(nodeIps: Option<set<string>>, address: string, application: string, seen: Instant, clock: Instant)
      requires Valid()
      modifies this
      ensures Valid() && history == old(history) + [Record(nodeIps, address, Known(application, seen), clock)]
    {
      history := history + [Record(nodeIps, address, Known(application, seen), clock)];
      assert history[..|history| - 1] == old(history);
      if !('/' in application) || application[0] == '/' {
        return;
      }
      var split := net.splitHost(address);
      var ip := if split.Some? then split.value else address;
      if !net.networkIp(ip) {
        return;
      }
      Prune(clock);
      var known := Known(application, seen);
      if split.Some? {
        if address !in byListen || seen > byListen[address].seen {
          byListen := byListen[address := known];
        }
      }
      if nodeIps.Some? && ip !in nodeIps.value {
        if ip !in byIp || seen > byIp[ip].seen {
          byIp := byIp[ip := known];
        }
      }
    }

    method Lookup(address: string, now: Instant) returns (name: Option<string>)
      ensures name == Found(net, Value(), address, now)
    {
      var known: Option<Known> := None;
      if address in byListen {
        known := Some(byListen[address]);
      } else {
        var split := net.splitHost(address);
        var host := if split.Some? then split.value else address;
        if host in byIp {
          known := Some(byIp[host]);
        }
      }
      if known.None? || now - known.value.seen >= RECENT_ADDRESS_MEMORY {
        return None;
      }
      name := Some(known.value.application);
    }

    method Clients(now: Instant) returns (ips: seq<string>)
      ensures multiset(ips) == multiset(FreshIps(Value(), now))
    {
      ips := [];
      var todo := byIp.Keys;
      while todo != {}
        invariant todo <= byIp.Keys
        invariant multiset(ips) == multiset(FreshIps(Value(), now) - todo)
        decreases todo
      {
        var ip :| ip in todo;
        if now - byIp[ip].seen < RECENT_ADDRESS_MEMORY {
          ips := ips + [ip];
          assert FreshIps(Value(), now) - (todo - {ip}) == (FreshIps(Value(), now) - todo) + {ip};
        } else {
          assert FreshIps(Value(), now) - (todo - {ip}) == FreshIps(Value(), now) - todo;
        }
        todo := todo - {ip};
      }
    }
  }

  // ----- one address -----

  /** An address taught once names its application for ten minutes, and not from then on. */
  lemma TaughtForTenMinutes(net: Net, r: Record, now: Instant)
    requires '/' in r.known.application && r.known.application[0] != '/' && net.networkIp(Host(net, r.address))
    requires IsListen(net, r.address)
    ensures Found(net, Run(net, [r]), r.address, now)
            == if now - r.known.seen < 10 * MINUTE then Some(r.known.application) else None
  {
    assert [r][..0] == [] && Run(net, []) == EMPTY;
    assert Run(net, [r]).byListen == map[r.address := r.known];
  }

  /** An IP that the directory knows for a node's is not learned, nor one while there is no directory, nor one
      of this host alone, nor the address of anything but an application of a namespace. */
  lemma NotLearned(net: Net, r: Record)
    requires || r.nodeIps == None || (r.nodeIps.Some? && Host(net, r.address) in r.nodeIps.value)
             || !net.networkIp(Host(net, r.address)) || '/' !in r.known.application || r.known.application[0] == '/'
    ensures Run(net, [r]).byIp == map[]
  {
    assert [r][..0] == [] && Run(net, []) == EMPTY;
  }

  /** The IP of an address with a port is what stands before the port; an address without one is an IP. */
  lemma HostIs(net: Net, address: string)
    ensures net.splitHost(address) == None ==> Host(net, address) == address && !IsListen(net, address)
    ensures forall host :: net.splitHost(address) == Some(host) ==> Host(net, address) == host && IsListen(net, address)
  {
  }
}
