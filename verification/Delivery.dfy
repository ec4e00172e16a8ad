/**
 Cross-device delivery: paired peers push observations and proposals, each kind numbered on
 its own, and the runtime accepts a number only once and only upwards.
 */
module Delivery {
  type DeviceId = string
  type Fingerprint = seq<bv8>

  datatype PairingState = Available | Pairing | Paired | Cancelled | Revoked | Expired

  datatype PairingGrant = PairingGrant(receiveObservations: bool, receiveProposals: bool, executeRemoteTasks: bool)

  datatype Peer = Peer(state: PairingState, grant: PairingGrant, fingerprint: Fingerprint)

  datatype RemoteSource = RemoteSource(device: DeviceId, fingerprint: Fingerprint, number: nat, timestamp: nat)

  datatype Kind = Observation | Proposal

  datatype DeliveryError =
    | UnknownPeer
    | NotPaired
    | GrantMissing
    | FingerprintMismatch
    | OutOfOrder(lastNumber: nat, newNumber: nat)
    | TooOld

  datatype Outcome = Accepted | Rejected(error: DeliveryError)

  type Registry = map<DeviceId, Peer>

  predicate Granted(g: PairingGrant, kind: Kind) {
    match kind
    case Observation => g.receiveObservations
    case Proposal => g.receiveProposals
  }

  function SaturatingSub(a: nat, b: nat): nat {
    if a >= b then a - b else 0
  }

  /** The checks in the order they are made; the first that fails is reported. */
  function AcceptRemoteDelivery(peer: Peer, source: RemoteSource, lastNumber: nat, skew: nat, now: nat, kind: Kind): Outcome {
    if peer.state != Paired then Rejected(NotPaired)
    else if source.fingerprint != peer.fingerprint then Rejected(FingerprintMismatch)
    else if !Granted(peer.grant, kind) then Rejected(GrantMissing)
    else if source.number <= lastNumber then Rejected(OutOfOrder(lastNumber, source.number))
    else if SaturatingSub(now, source.timestamp) > skew then Rejected(TooOld)
    else Accepted
  }

  /** The highest numbers accepted from one peer. */
  datatype PeerState = PeerState(lastObservation: nat, lastProposal: nat)

  type PeerStates = map<DeviceId, PeerState>

  function LastNumber(peers: PeerStates, device: DeviceId, kind: Kind): nat {
    if device !in peers then 0
    else match kind
      case Observation => peers[device].lastObservation
      case Proposal => peers[device].lastProposal
  }

  function Note(peers: PeerStates, device: DeviceId, kind: Kind, number: nat): PeerStates {
    var entry := if device in peers then peers[device] else PeerState(0, 0);
    peers[device := match kind
                    case Observation => entry.(lastObservation := number)
                    case Proposal => entry.(lastProposal := number)]
  }

  /** What does not change during a run. */
  datatype Config = Config(registry: Registry, skew: nat)

  datatype Delivery = Delivery(kind: Kind, source: RemoteSource, now: nat)

  function Judge(c: Config, peers: PeerStates, d: Delivery): Outcome {
    if d.source.device !in c.registry then Rejected(UnknownPeer)
    else AcceptRemoteDelivery(c.registry[d.source.device], d.source, LastNumber(peers, d.source.device, d.kind),
                              c.skew, d.now, d.kind)
  }

  function Receive(c: Config, peers: PeerStates, d: Delivery): PeerStates {
    if Judge(c, peers, d).Accepted? then Note(peers, d.source.device, d.kind, d.source.number) else peers
  }

  /** The peers' state after a sequence of deliveries. */
  function After(c: Config, ds: seq<Delivery>): PeerStates {
    if ds == [] then map[] else Receive(c, After(c, ds[..|ds| - 1]), ds[|ds| - 1])
  }

  /** What became of each delivery. */
  function Outcomes(c: Config, ds: seq<Delivery>): (r: seq<Outcome>)
    ensures |r| == |ds|
  {
    if ds == [] then [] else
    Outcomes(c, ds[..|ds| - 1]) + [Judge(c, After(c, ds[..|ds| - 1]), ds[|ds| - 1])]
  }

  predicate OnChannel(d: Delivery, device: DeviceId, kind: Kind) {
    d.source.device == device && d.kind == kind
  }

  lemma OtherChannelsUntouched(c: Config, peers: PeerStates, d: Delivery, device: DeviceId, kind: Kind)
    requires !OnChannel(d, device, kind) || Judge(c, peers, d).Rejected?
    ensures LastNumber(Receive(c, peers, d), device, kind) == LastNumber(peers, device, kind)
  {
  }

  // ---- against history ----

  lemma {:induction false} OutcomeAt(c: Config, ds: seq<Delivery>, i: nat)
    requires i < |ds|
    ensures Outcomes(c, ds)[i] == Judge(c, After(c, ds[..i]), ds[i])
  {
    var n := |ds| - 1;
    if i < n {
      OutcomeAt(c, ds[..n], i);
      assert ds[..n][..i] == ds[..i];
    }
  }

  /** Delivery `i` was accepted on this channel. */
  predicate AcceptedOn(c: Config, ds: seq<Delivery>, i: nat, device: DeviceId, kind: Kind) {
    i < |ds| && OnChannel(ds[i], device, kind) && Outcomes(c, ds)[i].Accepted?
  }

  /** The stored number is the greatest accepted on its channel, and 0 before the first. */
  lemma {:induction false} StoredIsGreatest(c: Config, ds: seq<Delivery>, device: DeviceId, kind: Kind)
    ensures forall i: nat :: AcceptedOn(c, ds, i, device, kind) ==> ds[i].source.number <= LastNumber(After(c, ds), device, kind)
    ensures LastNumber(After(c, ds), device, kind) == 0
         || exists i: nat :: AcceptedOn(c, ds, i, device, kind) && ds[i].source.number == LastNumber(After(c, ds), device, kind)
  {
    if ds != [] {
      var n := |ds| - 1;
      var before := ds[..n];
      StoredIsGreatest(c, before, device, kind);
      forall i: nat | i < n ensures AcceptedOn(c, ds, i, device, kind) <==> AcceptedOn(c, before, i, device, kind) {
        assert Outcomes(c, ds)[i] == Outcomes(c, before)[i];
      }
      assert Outcomes(c, ds)[n] == Judge(c, After(c, before), ds[n]);
      if AcceptedOn(c, ds, n, device, kind) {
        assert LastNumber(After(c, ds), device, kind) == ds[n].source.number;
      } else {
        OtherChannelsUntouched(c, After(c, before), ds[n], device, kind);
        if LastNumber(After(c, ds), device, kind) != 0 {
          var i: nat :| AcceptedOn(c, before, i, device, kind) && before[i].source.number == LastNumber(After(c, before), device, kind);
          assert AcceptedOn(c, ds, i, device, kind);
        }
      }
    }
  }

  /** The peer is paired, sends under its own key, and was granted the kind it sends. */
  predicate Permitted(c: Config, d: Delivery) {
    && d.source.device in c.registry
    && var peer := c.registry[d.source.device];
       && peer.state == Paired
       && peer.fingerprint == d.source.fingerprint
       && (d.kind == Observation ==> peer.grant.receiveObservations)
       && (d.kind == Proposal ==> peer.grant.receiveProposals)
  }

  /** The delivery is permitted and recent enough. */
  predicate Authorised(c: Config, d: Delivery) {
    Permitted(c, d) && d.now <= d.source.timestamp + c.skew
  }

  /**
   A delivery is accepted exactly when it is authorised and its number is positive and above
   every number accepted before on the same channel.
   */
  lemma AcceptedIff(c: Config, ds: seq<Delivery>, i: nat)
    requires i < |ds|
    ensures Outcomes(c, ds)[i].Accepted? <==>
              && Authorised(c, ds[i])
              && ds[i].source.number >= 1
              && forall j: nat :: j < i && AcceptedOn(c, ds, j, ds[i].source.device, ds[i].kind) ==> ds[j].source.number < ds[i].source.number
  {
    var d := ds[i];
    var before := ds[..i];
    OutcomeAt(c, ds, i);
    StoredIsGreatest(c, before, d.source.device, d.kind);
    forall j: nat | j < i
      ensures AcceptedOn(c, ds, j, d.source.device, d.kind) <==> AcceptedOn(c, before, j, d.source.device, d.kind)
    {
      OutcomeAt(c, ds, j);
      OutcomeAt(c, before, j);
      assert before[..j] == ds[..j];
    }
  }

  /** `n` is the greatest number accepted before delivery `i` on its channel, or 0. */
  ghost predicate GreatestBefore(c: Config, ds: seq<Delivery>, i: nat, n: nat)
    requires i < |ds|
  {
    && (forall j: nat :: j < i && AcceptedOn(c, ds, j, ds[i].source.device, ds[i].kind) ==> ds[j].source.number <= n)
    && (n == 0 || exists j: nat :: j < i && AcceptedOn(c, ds, j, ds[i].source.device, ds[i].kind) && ds[j].source.number == n)
  }

  /**
   Which rejection when, in any run: an unknown peer; a peer that is not paired; a foreign key;
   a kind that was not granted; a number not above the greatest accepted, with both numbers;
   or, all else being in order, a message older than the window.
   */
  lemma RejectedIff(c: Config, ds: seq<Delivery>, i: nat, last: nat)
    requires i < |ds| && GreatestBefore(c, ds, i, last)
    ensures var d, o := ds[i], Outcomes(c, ds)[i];
            var known := d.source.device in c.registry;
            && (o == Rejected(UnknownPeer) <==> !known)
            && (o == Rejected(NotPaired) <==> known && c.registry[d.source.device].state != Paired)
            && (o == Rejected(FingerprintMismatch) <==>
                  known && c.registry[d.source.device].state == Paired && c.registry[d.source.device].fingerprint != d.source.fingerprint)
            && (o == Rejected(GrantMissing) <==>
                  && known && c.registry[d.source.device].state == Paired && c.registry[d.source.device].fingerprint == d.source.fingerprint
                  && !(if d.kind == Observation then c.registry[d.source.device].grant.receiveObservations
                       else c.registry[d.source.device].grant.receiveProposals))
            && (o.Rejected? && o.error.OutOfOrder? <==> Permitted(c, d) && d.source.number <= last)
            && (o.Rejected? && o.error.OutOfOrder? ==> o.error == OutOfOrder(last, d.source.number))
            && (o == Rejected(TooOld) <==> Permitted(c, d) && d.source.number > last && d.now > d.source.timestamp + c.skew)
  {
    OutcomeAt(c, ds, i);
    StoredBefore(c, ds, i, last);
  }

  /** The number the checks compare with is the greatest accepted before. */
  lemma StoredBefore(c: Config, ds: seq<Delivery>, i: nat, last: nat)
    requires i < |ds| && GreatestBefore(c, ds, i, last)
    ensures LastNumber(After(c, ds[..i]), ds[i].source.device, ds[i].kind) == last
  {
    var d, before := ds[i], ds[..i];
    StoredIsGreatest(c, before, d.source.device, d.kind);
    forall j: nat | j < i
      ensures AcceptedOn(c, ds, j, d.source.device, d.kind) <==> AcceptedOn(c, before, j, d.source.device, d.kind)
    {
      OutcomeAt(c, ds, j);
      OutcomeAt(c, before, j);
      assert before[..j] == ds[..j];
    }
  }

  /** There always is such a number. */
  lemma GreatestExists(c: Config, ds: seq<Delivery>, i: nat) returns (last: nat)
    requires i < |ds|
    ensures GreatestBefore(c, ds, i, last)
  {
    var d, before := ds[i], ds[..i];
    last := LastNumber(After(c, before), d.source.device, d.kind);
    StoredIsGreatest(c, before, d.source.device, d.kind);
    forall j: nat | j < i
      ensures AcceptedOn(c, ds, j, d.source.device, d.kind) <==> AcceptedOn(c, before, j, d.source.device, d.kind)
    {
      OutcomeAt(c, ds, j);
      OutcomeAt(c, before, j);
      assert before[..j] == ds[..j];
    }
  }

  /** Numbers accepted from one peer for one kind strictly increase, so nothing is accepted twice. */
  lemma AcceptedIncrease(c: Config, ds: seq<Delivery>, device: DeviceId, kind: Kind, i: nat, j: nat)
    requires i < j && AcceptedOn(c, ds, i, device, kind) && AcceptedOn(c, ds, j, device, kind)
    ensures 1 <= ds[i].source.number < ds[j].source.number
  {
    AcceptedIff(c, ds, i);
    AcceptedIff(c, ds, j);
  }

  // ---- channels do not disturb each other ----

  function Only(ds: seq<Delivery>, device: DeviceId, kind: Kind): seq<Delivery> {
    if ds == [] then [] else
    var rest := Only(ds[..|ds| - 1], device, kind);
    if OnChannel(ds[|ds| - 1], device, kind) then rest + [ds[|ds| - 1]] else rest
  }

  /** The outcomes of the deliveries on one channel, within the whole run. */
  function OutcomesOn(c: Config, ds: seq<Delivery>, device: DeviceId, kind: Kind): seq<Outcome> {
    if ds == [] then [] else
    var rest := OutcomesOn(c, ds[..|ds| - 1], device, kind);
    if OnChannel(ds[|ds| - 1], device, kind) then rest + [Outcomes(c, ds)[|ds| - 1]] else rest
  }

  /** Each channel behaves as if it were the only one. */
  lemma {:induction false} ChannelsAreIndependent(c: Config, ds: seq<Delivery>, device: DeviceId, kind: Kind)
    ensures OutcomesOn(c, ds, device, kind) == Outcomes(c, Only(ds, device, kind))
    ensures LastNumber(After(c, ds), device, kind) == LastNumber(After(c, Only(ds, device, kind)), device, kind)
  {
    if ds != [] {
      var n := |ds| - 1;
      var before, d := ds[..n], ds[n];
      ChannelsAreIndependent(c, before, device, kind);
      var alone := Only(before, device, kind);
      if OnChannel(d, device, kind) {
        assert (alone + [d])[..|alone|] == alone;
        assert Judge(c, After(c, before), d) == Judge(c, After(c, alone), d);
      } else {
        OtherChannelsUntouched(c, After(c, before), d, device, kind);
      }
    }
  }

  // ---- the runtime object ----

  class DeviceRuntime {
    const config: Config
    var peerState: PeerStates
    /** Every delivery attempted so far. */
    ghost var deliveries: seq<Delivery>

    ghost predicate Valid()
      reads this
    {
      peerState == After(config, deliveries)
    }

    constructor (registry: Registry, skew: nat)
      ensures Valid() && deliveries == [] && config == Config(registry, skew)
    {
      config, peerState, deliveries := Config(registry, skew), map[], [];
    }

    method AcceptObservation(source: RemoteSource, now: nat) returns (r: Outcome)
      requires Valid()
      modifies this
      ensures Valid() && deliveries == old(deliveries) + [Delivery(Observation, source, now)]
      ensures r == Judge(config, old(peerState), Delivery(Observation, source, now))
      ensures r.Accepted? ==> Authorised(config, Delivery(Observation, source, now)) && config.registry[source.device].grant.receiveObservations
      ensures r.Rejected? ==> peerState == old(peerState)
    {
      ghost var d := Delivery(Observation, source, now);
      assert (deliveries + [d])[..|deliveries|] == deliveries;
      deliveries := deliveries + [d];
      if source.device !in config.registry { return Rejected(UnknownPeer); }
      var lastNumber := if source.device in peerState then peerState[source.device].lastObservation else 0;
      r := AcceptRemoteDelivery(config.registry[source.device], source, lastNumber, config.skew, now, Observation);
      if r.Accepted? {
        var entry := if source.device in peerState then peerState[source.device] else PeerState(0, 0);
        peerState := peerState[source.device := entry.(lastObservation := source.number)];
      }
    }

    method AcceptProposal(source: RemoteSource, now: nat) returns (r: Outcome)
      requires Valid()
      modifies this
      ensures Valid() && deliveries == old(deliveries) + [Delivery(Proposal, source, now)]
      ensures r == Judge(config, old(peerState), Delivery(Proposal, source, now))
      ensures r.Accepted? ==> Authorised(config, Delivery(Proposal, source, now)) && config.registry[source.device].grant.receiveProposals
      ensures r.Rejected? ==> peerState == old(peerState)
    {
      ghost var d := Delivery(Proposal, source, now);
      assert (deliveries + [d])[..|deliveries|] == deliveries;
      deliveries := deliveries + [d];
      if source.device !in config.registry { return Rejected(UnknownPeer); }
      var lastNumber := if source.device in peerState then peerState[source.device].lastProposal else 0;
      r := AcceptRemoteDelivery(config.registry[source.device], source, lastNumber, config.skew, now, Proposal);
      if r.Accepted? {
        var entry := if source.device in peerState then peerState[source.device] else PeerState(0, 0);
        peerState := peerState[source.device := entry.(lastProposal := source.number)];
      }
    }
  }
}
