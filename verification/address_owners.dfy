/** collector/applications.go: which application an address belongs to.

    Go maps give the order in which claims to an address turn up, and there may be several. Whatever the
    order, the claim kept is the first that no other replaces: alive if any is, and of those the latest. */
module AddressOwners {
  import opened Prelude

  datatype AddressOwner = AddressOwner(application: string, alive: bool, lastSeen: int, traced: bool) {
    predicate Replaces(other: AddressOwner) {
      if alive != other.alive then alive else lastSeen > other.lastSeen
    }
  }

  /** What an instance says of an address: the IP of its pod, or a port it listens on. */
  datatype Claim = Pod(ip: string, owner: AddressOwner) | Listen(ip: string, port: string, application: string, active: bool)

  /** A listen on port 0 is of the whole IP. */
  predicate OfIp(claim: Claim) {
    match claim
    case Pod(ip, _) => ip != ""
    case Listen(_, port, _, _) => port == "0"
  }

  predicate OfListen(claim: Claim) {
    claim.Listen? && claim.port != "0"
  }

  function OwnerOf(claim: Claim): AddressOwner {
    match claim
    case Pod(_, owner) => owner
    case Listen(_, _, application, active) => AddressOwner(application, active, 0, false)
  }

  /** net.JoinHostPort, which is not looked into. */
  type Join = (string, string) -> string

  /** The address a claim is on. */
  function AddressOf(join: Join, claim: Claim): string {
    if OfListen(claim) then join(claim.ip, claim.port) else claim.ip
  }

  type Owners = map<string, AddressOwner>

  predicate Claims(join: Join, claim: Claim, listens: bool, address: string) {
    (if listens then OfListen(claim) else OfIp(claim)) && AddressOf(join, claim) == address
  }

  /** Each address that is claimed has an owner who claims it and whom no other claimant replaces. */
  ghost predicate AreOwners(join: Join, claims: set<Claim>, listens: bool, owners: Owners) {
    && (forall claim, address | claim in claims && Claims(join, claim, listens, address) ::
          address in owners && !OwnerOf(claim).Replaces(owners[address]))
    && (forall address :: address in owners ==>
          exists claim :: claim in claims && Claims(join, claim, listens, address) && owners[address] == OwnerOf(claim))
  }

  /** Nothing replaces what replaces a thing that it does not replace. */
  lemma ReplacesIsOrder(a: AddressOwner, b: AddressOwner, c: AddressOwner)
    ensures !a.Replaces(b) && !b.Replaces(c) ==> !a.Replaces(c)
    ensures !a.Replaces(b) && c.Replaces(b) ==> c.Replaces(a)
  {
  }

  // ----- the owners after claims in some order -----

  function Owned(owners: Owners, address: string, owner: AddressOwner): Owners {
    if address !in owners || owner.Replaces(owners[address]) then owners[address := owner] else owners
  }

  function OwnersOf(join: Join, order: seq<Claim>, listens: bool): Owners {
    if order == [] then map[]
    else
      var before, last := OwnersOf(join, order[..|order| - 1], listens), order[|order| - 1];
      if if listens then OfListen(last) else OfIp(last) then Owned(before, AddressOf(join, last), OwnerOf(last)) else before
  }

  /** The claim at w is the first of those of the address that no other replaces. */
  ghost predicate Wins(join: Join, order: seq<Claim>, listens: bool, address: string, w: nat) {
    && w < |order| && Claims(join, order[w], listens, address)
    && (forall j :: 0 <= j < w && Claims(join, order[j], listens, address) ==> OwnerOf(order[w]).Replaces(OwnerOf(order[j])))
    && (forall j :: w < j < |order| && Claims(join, order[j], listens, address) ==> !OwnerOf(order[j]).Replaces(OwnerOf(order[w])))
  }

  lemma WinsNext(join: Join, before: seq<Claim>, last: Claim, listens: bool, address: string, w: nat) returns (w': nat)
    requires Wins(join, before, listens, address, w)
    ensures Wins(join, before + [last], listens, address, w')
    ensures w' == if Claims(join, last, listens, address) && OwnerOf(last).Replaces(OwnerOf(before[w])) then |before| else w
  {
    var order := before + [last];
    if Claims(join, last, listens, address) && OwnerOf(last).Replaces(OwnerOf(before[w])) {
      w' := |before|;
      forall j | 0 <= j < w' && Claims(join, order[j], listens, address) ensures OwnerOf(last).Replaces(OwnerOf(order[j])) {
        assert order[j] == before[j];
        ReplacesIsOrder(OwnerOf(before[j]), OwnerOf(before[w]), OwnerOf(last));
      }
    } else {
      w' := w;
    }
  }

  ghost predicate Claimed(join: Join, order: seq<Claim>, listens: bool, address: string) {
    exists claim :: claim in order && Claims(join, claim, listens, address)
  }

  lemma ClaimedNext(join: Join, before: seq<Claim>, last: Claim, listens: bool, address: string)
    ensures Claimed(join, before + [last], listens, address) <==>
            Claimed(join, before, listens, address) || Claims(join, last, listens, address)
  {
    assert forall claim :: claim in before + [last] <==> claim in before || claim == last;
  }

  lemma {:induction false} OwnedIffClaimed(join: Join, order: seq<Claim>, listens: bool, address: string)
    ensures address in OwnersOf(join, order, listens) <==> Claimed(join, order, listens, address)
  {
    if order != [] {
      var before, last := order[..|order| - 1], order[|order| - 1];
      OwnedIffClaimed(join, before, listens, address);
      assert order == before + [last];
      ClaimedNext(join, before, last, listens, address);
    }
  }

  /** In any order an address goes to the first claim that no other replaces. */
  lemma {:induction false} FirstUnreplacedOwns(join: Join, order: seq<Claim>, listens: bool, address: string)
    returns (w: nat)
    requires Claimed(join, order, listens, address)
    ensures Wins(join, order, listens, address, w)
    ensures address in OwnersOf(join, order, listens) && OwnersOf(join, order, listens)[address] == OwnerOf(order[w])
  {
    var before, last := order[..|order| - 1], order[|order| - 1];
    assert order == before + [last];
    OwnedIffClaimed(join, before, listens, address);
    if Claimed(join, before, listens, address) {
      w := FirstUnreplacedOwns(join, before, listens, address);
      w := WinsNext(join, before, last, listens, address, w);
    } else {
      w := |before|;
      assert forall j :: 0 <= j < w ==> order[j] == before[j] && before[j] in before;
    }
  }

  /** An order in which the claims may turn up. */
  ghost predicate IsOrder(claims: set<Claim>, order: seq<Claim>) {
    forall claim :: claim in order <==> claim in claims
  }

  /** Whatever the order, each address is its owner's as it should be. */
  lemma OrderedOwners(join: Join, claims: set<Claim>, order: seq<Claim>, listens: bool)
    requires IsOrder(claims, order)
    ensures AreOwners(join, claims, listens, OwnersOf(join, order, listens))
  {
    var owners := OwnersOf(join, order, listens);
    forall claim, address | claim in claims && Claims(join, claim, listens, address)
      ensures address in owners && !OwnerOf(claim).Replaces(owners[address])
    {
      assert claim in order && Claimed(join, order, listens, address);
      var w := FirstUnreplacedOwns(join, order, listens, address);
      var j :| 0 <= j < |order| && order[j] == claim;
      assert j < w ==> OwnerOf(order[w]).Replaces(OwnerOf(order[j]));
    }
    forall address | address in owners
      ensures exists claim :: claim in claims && Claims(join, claim, listens, address) && owners[address] == OwnerOf(claim)
    {
      OwnedIffClaimed(join, order, listens, address);
      var w := FirstUnreplacedOwns(join, order, listens, address);
      assert order[w] in order;
    }
  }

  /** own: the map is changed where the owner is the address's. */
  method Own(owners: Owners, address: string, owner: AddressOwner) returns (r: Owners)
    ensures r == Owned(owners, address, owner)
  {
    r := owners;
    if address !in owners || owner.Replaces(owners[address]) {
      r := owners[address := owner];
    }
  }

  lemma OwnersNext(join: Join, order: seq<Claim>, claim: Claim, listens: bool)
    ensures OwnersOf(join, order + [claim], listens) ==
            if if listens then OfListen(claim) else OfIp(claim)
            then Owned(OwnersOf(join, order, listens), AddressOf(join, claim), OwnerOf(claim)) else OwnersOf(join, order, listens)
  {
    assert (order + [claim])[..|order|] == order;
  }

  /** The owners of the IPs and of the listens, from the claims of all instances in whatever order. */
  method FindOwners(join: Join, claims: set<Claim>) returns (ips: Owners, listens: Owners, ghost order: seq<Claim>)
    ensures AreOwners(join, claims, false, ips) && AreOwners(join, claims, true, listens)
    ensures IsOrder(claims, order) && ips == OwnersOf(join, order, false) && listens == OwnersOf(join, order, true)
  {
    ips, listens, order := map[], map[], [];
    var rest := claims;
    while rest != {}
      invariant rest <= claims && IsOrder(claims - rest, order)
      invariant ips == OwnersOf(join, order, false) && listens == OwnersOf(join, order, true)
      decreases rest
    {
      var claim :| claim in rest;
      rest := rest - {claim};
      if OfIp(claim) {
        ips := Own(ips, AddressOf(join, claim), OwnerOf(claim));
      } else if OfListen(claim) {
        listens := Own(listens, AddressOf(join, claim), OwnerOf(claim));
      }
      OwnersNext(join, order, claim, false);
      OwnersNext(join, order, claim, true);
      order := order + [claim];
    }
    OrderedOwners(join, claims, order, false);
    OrderedOwners(join, claims, order, true);
  }

  // ----- when the order matters -----

  /** A claim of the address that no other of its claims replaces. */
  ghost predicate Unreplaced(join: Join, claims: set<Claim>, listens: bool, address: string, claim: Claim) {
    && claim in claims && Claims(join, claim, listens, address)
    && forall other :: other in claims && Claims(join, other, listens, address) ==> !OwnerOf(other).Replaces(OwnerOf(claim))
  }

  /** The claims of the address that no other replaces are for one owner. */
  ghost predicate OneOwner(join: Join, claims: set<Claim>, listens: bool, address: string) {
    forall x, y | Unreplaced(join, claims, listens, address, x) && Unreplaced(join, claims, listens, address, y) :: OwnerOf(x) == OwnerOf(y)
  }

  function OwnerAt(owners: Owners, address: string): Option<AddressOwner> {
    if address in owners then Some(owners[address]) else None
  }

  /** Any two orders give the address the same owner. */
  ghost predicate AnyOrder(join: Join, claims: set<Claim>, listens: bool, address: string) {
    forall a, b | IsOrder(claims, a) && IsOrder(claims, b) ::
      OwnerAt(OwnersOf(join, a, listens), address) == OwnerAt(OwnersOf(join, b, listens), address)
  }

  lemma OwnerKept(join: Join, claims: set<Claim>, listens: bool, owners: Owners, address: string) returns (claim: Claim)
    requires AreOwners(join, claims, listens, owners) && address in owners
    ensures Unreplaced(join, claims, listens, address, claim) && owners[address] == OwnerOf(claim)
  {
    claim :| claim in claims && Claims(join, claim, listens, address) && owners[address] == OwnerOf(claim);
  }

  lemma {:induction false} SomeOrder(claims: set<Claim>) returns (order: seq<Claim>)
    ensures IsOrder(claims, order)
  {
    order := [];
    if claims != {} {
      var claim :| claim in claims;
      order := SomeOrder(claims - {claim});
      order := order + [claim];
    }
  }

  /** An unreplaced claim owns the address in an order that starts with it. */
  lemma FirstOwns(join: Join, claims: set<Claim>, listens: bool, address: string, claim: Claim) returns (order: seq<Claim>)
    requires Unreplaced(join, claims, listens, address, claim)
    ensures IsOrder(claims, order) && OwnerAt(OwnersOf(join, order, listens), address) == Some(OwnerOf(claim))
  {
    order := SomeOrder(claims);
    order := [claim] + order;
    assert order[0] == claim && claim in order;
    var w := FirstUnreplacedOwns(join, order, listens, address);
    assert order[w] in order;
  }

  /** The order in which the world is walked does not matter for an address if and only if those of its
      claims that no other replaces are for one owner. */
  lemma OrderMattersIff(join: Join, claims: set<Claim>, listens: bool, address: string)
    ensures AnyOrder(join, claims, listens, address) <==> OneOwner(join, claims, listens, address)
  {
    if OneOwner(join, claims, listens, address) {
      forall a, b | IsOrder(claims, a) && IsOrder(claims, b)
        ensures OwnerAt(OwnersOf(join, a, listens), address) == OwnerAt(OwnersOf(join, b, listens), address)
      {
        SameOwner(join, claims, listens, address, a, b);
      }
    }
    if AnyOrder(join, claims, listens, address) {
      forall x, y | Unreplaced(join, claims, listens, address, x) && Unreplaced(join, claims, listens, address, y)
        ensures OwnerOf(x) == OwnerOf(y)
      {
        var a := FirstOwns(join, claims, listens, address, x);
        var b := FirstOwns(join, claims, listens, address, y);
      }
    }
  }

  lemma SameOwner(join: Join, claims: set<Claim>, listens: bool, address: string, a: seq<Claim>, b: seq<Claim>)
    requires OneOwner(join, claims, listens, address) && IsOrder(claims, a) && IsOrder(claims, b)
    ensures OwnerAt(OwnersOf(join, a, listens), address) == OwnerAt(OwnersOf(join, b, listens), address)
  {
    OwnedIffClaimed(join, a, listens, address);
    OwnedIffClaimed(join, b, listens, address);
    if address in OwnersOf(join, a, listens) {
      OrderedOwners(join, claims, a, listens);
      OrderedOwners(join, claims, b, listens);
      var x := OwnerKept(join, claims, listens, OwnersOf(join, a, listens), address);
      var y := OwnerKept(join, claims, listens, OwnersOf(join, b, listens), address);
    }
  }

  /** So the owners of all addresses are determined when there is one for each. */
  lemma OwnersDoNotDependOnOrder(join: Join, claims: set<Claim>, listens: bool, a: Owners, b: Owners)
    requires AreOwners(join, claims, listens, a) && AreOwners(join, claims, listens, b)
    requires forall address :: OneOwner(join, claims, listens, address)
    ensures a == b
  {
    forall address | address in a ensures address in b && a[address] == b[address] {
      assert OneOwner(join, claims, listens, address);
      var x := OwnerKept(join, claims, listens, a, address);
      var y := OwnerKept(join, claims, listens, b, address);
    }
    forall address | address in b ensures address in a {
      var y := OwnerKept(join, claims, listens, b, address);
    }
  }

  /** Two applications that actively listen on one address tie: the first one walked owns it. */
  lemma ListensTie(join: Join, ip: string, port: string, a: string, b: string)
    requires port != "0" && a != b
    ensures var x, y := Listen(ip, port, a, true), Listen(ip, port, b, true);
            && !AnyOrder(join, {x, y}, true, join(ip, port))
            && OwnerAt(OwnersOf(join, [x, y], true), join(ip, port)) == Some(OwnerOf(x))
            && OwnerAt(OwnersOf(join, [y, x], true), join(ip, port)) == Some(OwnerOf(y))
  {
    var x, y := Listen(ip, port, a, true), Listen(ip, port, b, true);
    assert Unreplaced(join, {x, y}, true, join(ip, port), x) && Unreplaced(join, {x, y}, true, join(ip, port), y);
    assert OwnerOf(x) != OwnerOf(y);
    OrderMattersIff(join, {x, y}, true, join(ip, port));
    TieGoesToFirst(join, x, y, join(ip, port));
    TieGoesToFirst(join, y, x, join(ip, port));
  }

  lemma TieGoesToFirst(join: Join, x: Claim, y: Claim, address: string)
    requires Claims(join, x, true, address) && Claims(join, y, true, address) && !OwnerOf(y).Replaces(OwnerOf(x))
    ensures OwnerAt(OwnersOf(join, [x, y], true), address) == Some(OwnerOf(x))
  {
    OwnersNext(join, [], x, true);
    OwnersNext(join, [x], y, true);
    assert [] + [x] == [x] && [x] + [y] == [x, y];
  }

  /** A claim that is alive is never hidden by one that is not, nor a pod by one seen earlier. */
  lemma AliveWins(join: Join, claims: set<Claim>, listens: bool, owners: Owners,
                  claim: Claim, address: string)
    requires AreOwners(join, claims, listens, owners) && claim in claims && Claims(join, claim, listens, address)
    ensures address in owners && (OwnerOf(claim).alive ==> owners[address].alive)
    ensures OwnerOf(claim).alive == owners[address].alive ==> owners[address].lastSeen >= OwnerOf(claim).lastSeen
  {
  }

  // ----- what the owner of an address is, said of the claims -----

  /** An active listen of the application on the address ip:port. */
  predicate ListensOn(join: Join, claim: Claim, address: string, application: string) {
    claim.Listen? && claim.active && claim.port != "0" && join(claim.ip, claim.port) == address && claim.application == application
  }

  /** A listened address that some active listen claims is owned by the application of an active listen of
      it: a process that stopped never names the one that took its port. */
  lemma ActiveListenOwns(join: Join, claims: set<Claim>, order: seq<Claim>, claim: Claim, address: string, application: string)
    requires IsOrder(claims, order) && claim in claims && ListensOn(join, claim, address, application)
    ensures address in OwnersOf(join, order, true)
    ensures exists other :: other in claims && ListensOn(join, other, address, OwnersOf(join, order, true)[address].application)
  {
    assert Claims(join, claim, true, address);
    OrderedOwners(join, claims, order, true);
    var other := OwnerKept(join, claims, true, OwnersOf(join, order, true), address);
    assert ListensOn(join, other, address, OwnerOf(other).application);
  }

  /** A living pod with the IP, or an active listen on its port 0. */
  predicate LivesAt(claim: Claim, ip: string, application: string) {
    match claim
    case Pod(podIp, owner) => podIp == ip && owner.alive && owner.application == application
    case Listen(listenIp, port, listener, active) => listenIp == ip && port == "0" && active && listener == application
  }

  /** An IP that something alive claims is owned by something alive. */
  lemma LivingClaimOwns(join: Join, claims: set<Claim>, order: seq<Claim>, claim: Claim, ip: string, application: string)
    requires IsOrder(claims, order) && claim in claims && ip != "" && LivesAt(claim, ip, application)
    ensures ip in OwnersOf(join, order, false)
    ensures exists other :: other in claims && LivesAt(other, ip, OwnersOf(join, order, false)[ip].application)
  {
    assert Claims(join, claim, false, ip);
    OrderedOwners(join, claims, order, false);
    var other := OwnerKept(join, claims, false, OwnersOf(join, order, false), ip);
    assert LivesAt(other, ip, OwnerOf(other).application);
  }

  /** Claims of pods only: all are alive, or none is. */
  ghost predicate PodsAlike(claims: set<Claim>, ip: string, alive: bool) {
    forall claim :: claim in claims && claim.ip == ip ==> claim.Pod? && claim.owner.alive == alive
  }

  /** Of pods that are alike alive the IP goes to one seen no earlier than any other. */
  lemma LatestPodOwns(join: Join, claims: set<Claim>, order: seq<Claim>, ip: string, alive: bool, pod: Claim)
    requires IsOrder(claims, order) && PodsAlike(claims, ip, alive) && ip != "" && pod in claims && pod.ip == ip
    ensures ip in OwnersOf(join, order, false)
    ensures exists other :: other in claims && other.Pod? && other.ip == ip && OwnersOf(join, order, false)[ip] == other.owner
              && forall claim :: claim in claims && claim.Pod? && claim.ip == ip ==> claim.owner.lastSeen <= other.owner.lastSeen
  {
    assert Claims(join, pod, false, ip);
    OrderedOwners(join, claims, order, false);
    var other := OwnerKept(join, claims, false, OwnersOf(join, order, false), ip);
    forall claim | claim in claims && claim.Pod? && claim.ip == ip ensures claim.owner.lastSeen <= other.owner.lastSeen {
      assert Claims(join, claim, false, ip);
    }
  }

  /** A port reused by another application while the old listen is still reported. */
  lemma ReusedPort(join: Join, ip: string, port: string, was: string, now: string)
    requires port != "0" && was != now
    ensures var x, y := Listen(ip, port, was, false), Listen(ip, port, now, true);
            && OwnerAt(OwnersOf(join, [x, y], true), join(ip, port)).Some?
            && OwnerAt(OwnersOf(join, [x, y], true), join(ip, port)).value.application == now
            && OwnerAt(OwnersOf(join, [y, x], true), join(ip, port)).Some?
            && OwnerAt(OwnersOf(join, [y, x], true), join(ip, port)).value.application == now
  {
    var x, y := Listen(ip, port, was, false), Listen(ip, port, now, true);
    ActiveListenOwns(join, {x, y}, [x, y], y, join(ip, port), now);
    ActiveListenOwns(join, {x, y}, [y, x], y, join(ip, port), now);
  }
}
