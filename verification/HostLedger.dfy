/**
 What a journal says about approvals and executions, read off the journal alone.

 `Tally` summarises a journal; `Sound` says that every entry is justified by the entries
 before it. The approval gate is a statement about sound journals: it does not mention
 the host's maps.
 */
module HostLedger {
  import opened Prelude
  import opened Actions
  import opened Sessions
  import opened Validation
  import opened HostModel

  datatype Request = Request(session: SessionId, action: Action, createdAt: nat)

  /**
   `created`: the sessions created; `checked`: the submissions that validated; `requested`: every approval ever asked for;
   `granted`, `denied`, `expired`: how approvals ended; `executed`: sessions whose action
   reached the executor; `cancelled`: sessions cancelled by the host.
   */
  datatype Ledger = Ledger(
    created: set<SessionId>,
    checked: set<(SessionId, Action)>,
    requested: map<ApprovalId, Request>,
    granted: set<ApprovalId>,
    denied: set<ApprovalId>,
    expired: set<ApprovalId>,
    executed: set<SessionId>,
    cancelled: set<SessionId>)

  const EMPTY := Ledger({}, {}, map[], {}, {}, {}, {}, {})

  function Resolved(l: Ledger): set<ApprovalId> {
    l.granted + l.denied + l.expired
  }

  function Open(l: Ledger): set<ApprovalId> {
    l.requested.Keys - Resolved(l)
  }

  function Post(l: Ledger, e: Entry): Ledger {
    match e
    case SessionCreated(s) => l.(created := l.created + {s})
    case CapabilityChecked(s, a, _, valid) => if valid then l.(checked := l.checked + {(s, a)}) else l
    case ApprovalRequested(id, s, a, t) => l.(requested := l.requested[id := Request(s, a, t)])
    case ApprovalGranted(id, _, _) => l.(granted := l.granted + {id})
    case ApprovalDenied(id, _, _) => l.(denied := l.denied + {id})
    case ApprovalExpired(id, _, _) => l.(expired := l.expired + {id})
    case Executed(s, _) => l.(executed := l.executed + {s})
    case SessionCancelled(s) => l.(cancelled := l.cancelled + {s})
    case _ => l
  }

  function Tally(j: seq<Entry>): Ledger {
    if j == [] then EMPTY else Post(Tally(j[..|j| - 1]), j[|j| - 1])
  }

  /** The open request `id` was made by session `s` for action `a`. */
  predicate OpenFor(l: Ledger, id: ApprovalId, s: SessionId, a: Action) {
    id in Open(l) && l.requested[id].session == s && l.requested[id].action == a
  }

  /** Some granted request was made by session `s` for action `a`. */
  ghost predicate Consent(l: Ledger, s: SessionId, a: Action) {
    exists id :: id in l.granted && id in l.requested && l.requested[id].session == s && l.requested[id].action == a
  }

  /** No open request but `id` itself and the newcomer is older than `id`. */
  ghost predicate OldestOpen(l: Ledger, id: ApprovalId, newcomer: ApprovalId) {
    && id in Open(l) && newcomer in Open(l) && id != newcomer
    && forall o :: o in Open(l) && o != newcomer ==> l.requested[id].createdAt <= l.requested[o].createdAt
  }

  ghost predicate Justified(l: Ledger, e: Entry) {
    match e
    case SessionCreated(s) => s !in l.created
    case CapabilityChecked(_, a, granted, valid) => valid <==> IsValid(granted, a)
    case ApprovalRequested(id, s, a, _) =>
      id !in l.requested && (s, a) in l.checked && NeedsConfirmation(a.risk) && s !in l.executed && s !in l.cancelled
    case ApprovalGranted(id, s, a) => OpenFor(l, id, s, a)
    case ApprovalDenied(id, s, a) => OpenFor(l, id, s, a)
    case ApprovalExpired(id, s, newcomer) => OldestOpen(l, id, newcomer) && l.requested[id].session == s
    case Executed(s, a) =>
      && s !in l.executed
      && s !in l.cancelled
      && (s, a) in l.checked
      && (NeedsConfirmation(a.risk) ==> Consent(l, s, a))
    case SessionCancelled(s) => s !in l.executed && s !in l.cancelled
    case _ => true
  }

  ghost predicate Sound(j: seq<Entry>) {
    j == [] || (Sound(j[..|j| - 1]) && Justified(Tally(j[..|j| - 1]), j[|j| - 1]))
  }

  /** The event a journal entry is announced with; checks, evictions and executor calls have none. */
  function EventOf(e: Entry): Option<AgentEvent> {
    match e
    case SessionCreated(s) => Some(OnSessionCreated(s))
    case ActionDenied(s, a) => Some(OnActionDenied(s, a))
    case ApprovalRequested(_, s, a, _) => Some(OnApprovalRequested(s, a.id))
    case ApprovalGranted(_, s, a) => Some(OnApprovalGranted(s, a.id))
    case ApprovalDenied(_, s, a) => Some(OnApprovalDenied(s, a.id))
    case ActionRequested(s, a) => Some(OnActionRequested(s, a.id))
    case ActionCompleted(s, a) => Some(OnActionCompleted(s, a.id))
    case ActionFailed(s, a) => Some(OnActionFailed(s, a.id))
    case SessionCompleted(s) => Some(OnSessionCompleted(s))
    case SessionCancelled(s) => Some(OnSessionCancelled(s))
    case HostFailed => Some(OnHostFailed)
    case CapabilityChecked(_, _, _, _) | PolicyChecked(_, _) | ApprovalExpired(_, _, _) | Executed(_, _) => None
  }

  function EventsOf(j: seq<Entry>): seq<AgentEvent> {
    if j == [] then [] else
    EventsOf(j[..|j| - 1]) + match EventOf(j[|j| - 1]) case Some(ev) => [ev] case None => []
  }

  lemma {:induction false} Append(j: seq<Entry>, e: Entry)
    ensures Tally(j + [e]) == Post(Tally(j), e)
    ensures Sound(j + [e]) <==> Sound(j) && Justified(Tally(j), e)
    ensures EventsOf(j + [e]) == EventsOf(j) + match EventOf(e) case Some(ev) => [ev] case None => []
  {
    assert (j + [e])[..|j|] == j;
  }

  // ---- reading a sound journal by position ----

  lemma {:induction false} SoundPrefix(j: seq<Entry>, i: nat)
    requires Sound(j) && i < |j|
    ensures Sound(j[..i]) && Justified(Tally(j[..i]), j[i])
  {
    var n := |j| - 1;
    if i < n {
      SoundPrefix(j[..n], i);
      assert j[..n][..i] == j[..i];
    }
  }

  lemma {:induction false} RequestedAt(j: seq<Entry>, id: ApprovalId) returns (k: nat)
    requires id in Tally(j).requested
    ensures k < |j|
    ensures var r := Tally(j).requested[id]; j[k] == ApprovalRequested(id, r.session, r.action, r.createdAt)
  {
    var n := |j| - 1;
    if j[n].ApprovalRequested? && j[n].approval == id {
      k := n;
    } else {
      k := RequestedAt(j[..n], id);
    }
  }

  lemma {:induction false} GrantedAt(j: seq<Entry>, id: ApprovalId) returns (k: nat)
    requires id in Tally(j).granted
    ensures k < |j| && j[k].ApprovalGranted? && j[k].approval == id
  {
    var n := |j| - 1;
    if j[n].ApprovalGranted? && j[n].approval == id {
      k := n;
    } else {
      k := GrantedAt(j[..n], id);
    }
  }

  /** Entry `k` records that action `a` of session `s` passed validation under the capabilities it names. */
  predicate PassedAt(j: seq<Entry>, k: nat, s: SessionId, a: Action)
    requires k < |j|
  {
    j[k].CapabilityChecked? && j[k].session == s && j[k].action == a && j[k].valid
  }

  lemma {:induction false} CheckedAt(j: seq<Entry>, s: SessionId, a: Action) returns (k: nat)
    requires (s, a) in Tally(j).checked
    ensures k < |j| && PassedAt(j, k, s, a)
  {
    var n := |j| - 1;
    if PassedAt(j, n, s, a) {
      k := n;
    } else {
      k := CheckedAt(j[..n], s, a);
    }
  }

  /** Whatever an entry records stays on the ledger of every longer journal. */
  lemma {:induction false} Recorded(j: seq<Entry>, k: nat)
    requires k < |j|
    ensures var l := Tally(j);
            match j[k]
            case ApprovalRequested(id, _, _, _) => id in l.requested
            case ApprovalGranted(id, _, _) => id in l.granted
            case ApprovalDenied(id, _, _) => id in l.denied
            case ApprovalExpired(id, _, _) => id in l.expired
            case Executed(s, _) => s in l.executed
            case SessionCancelled(s) => s in l.cancelled
            case _ => true
  {
    var n := |j| - 1;
    if k < n {
      Recorded(j[..n], k);
    }
  }

  /** Ids only enter the ledger's `requested` through an `ApprovalRequested` entry. */
  lemma FreshIffUnrequested(j: seq<Entry>, id: ApprovalId)
    ensures FreshApproval(j, id) <==> id !in Tally(j).requested
  {
    if id in Tally(j).requested {
      var k := RequestedAt(j, id);
    } else {
      forall k | 0 <= k < |j| && j[k].ApprovalRequested?
        ensures j[k].approval != id
      {
        Recorded(j, k);
      }
    }
  }

  /** In a sound journal the three ways to end are exclusive and only end what was requested. */
  lemma {:induction false} Exclusive(j: seq<Entry>)
    requires Sound(j)
    ensures var l := Tally(j);
            && l.granted !! l.denied !! l.expired
            && Resolved(l) <= l.requested.Keys
  {
    if j != [] {
      Exclusive(j[..|j| - 1]);
    }
  }

  /** Two entries of a sound journal never resolve the same approval. */
  lemma ResolvedOnce(j: seq<Entry>, i: nat, k: nat)
    requires Sound(j) && i < k < |j|
    requires j[i].ApprovalGranted? || j[i].ApprovalDenied? || j[i].ApprovalExpired?
    requires j[k].ApprovalGranted? || j[k].ApprovalDenied? || j[k].ApprovalExpired?
    ensures j[i].approval != j[k].approval
  {
    SoundPrefix(j, k);
    Recorded(j[..k], i);
  }

  /** A request is recorded once, and is what the ledger says it is. */
  lemma RequestedOnce(j: seq<Entry>, i: nat, k: nat)
    requires Sound(j) && i < k < |j|
    requires j[i].ApprovalRequested? && j[k].ApprovalRequested?
    ensures j[i].approval != j[k].approval
  {
    SoundPrefix(j, k);
    Recorded(j[..k], i);
  }

  /** Execution `i` has the consent of request `r`, found valid at `c` under the capabilities then in force, and granted at `g`. */
  predicate ConsentedBy(j: seq<Entry>, i: nat, c: nat, r: nat, g: nat)
    requires i < |j| && j[i].Executed?
  {
    && c < r < g < i
    && PassedAt(j, c, j[i].session, j[i].action) && IsValid(j[c].granted, j[i].action)
    && j[r].ApprovalRequested? && j[r].session == j[i].session && j[r].action == j[i].action
    && j[g].ApprovalGranted? && j[g].approval == j[r].approval
  }

  /**
   The approval gate. An action carrying risk High or Critical reaches the executor only
   after it was validated, parked and granted, in that order; the approval was not denied
   or evicted before or after; the session was not cancelled before or after; and no other
   action ever runs in that session.
   */
  lemma ApprovalGate(j: seq<Entry>, i: nat) returns (c: nat, r: nat, g: nat)
    requires Sound(j) && i < |j| && j[i].Executed? && NeedsConfirmation(j[i].action.risk)
    ensures ConsentedBy(j, i, c, r, g)
    ensures forall k :: 0 <= k < |j| && (j[k].ApprovalDenied? || j[k].ApprovalExpired?) ==> j[k].approval != j[r].approval
    ensures forall k :: 0 <= k < |j| && j[k].SessionCancelled? ==> j[k].session != j[i].session
    ensures forall k :: 0 <= k < |j| && k != i && j[k].Executed? ==> j[k].session != j[i].session
  {
    SoundPrefix(j, i);
    var before := j[..i];
    var s, a := j[i].session, j[i].action;
    var l := Tally(before);
    var id :| id in l.granted && id in l.requested && l.requested[id].session == s && l.requested[id].action == a;
    g := GrantedAt(before, id);
    SoundPrefix(j, g);
    r := RequestedAt(j[..g], id);
    SoundPrefix(j, r);
    c := RequestMatches(j, i, id, r);
    SoundPrefix(j, c);
    NeverResolvedOtherwise(j, g);
    OneShot(j, i);
  }

  ghost predicate Consented(j: seq<Entry>, i: nat)
    requires i < |j| && j[i].Executed?
  {
    exists c, r, g :: ConsentedBy(j, i, c, r, g)
  }

  /** An executed action had consent exactly when the risk it carried asked for it; the table plays no part. */
  lemma ConsentedIffCarried(j: seq<Entry>, i: nat)
    requires Sound(j) && i < |j| && j[i].Executed?
    ensures Consented(j, i) <==> NeedsConfirmation(j[i].action.risk)
  {
    if NeedsConfirmation(j[i].action.risk) {
      var c, r, g := ApprovalGate(j, i);
    } else if Consented(j, i) {
      var c, r, g :| ConsentedBy(j, i, c, r, g);
      SoundPrefix(j, r);
    }
  }

  /** An action of any risk reaches the executor only after it was found valid. */
  lemma ExecutedWasValid(j: seq<Entry>, i: nat) returns (c: nat)
    requires Sound(j) && i < |j| && j[i].Executed?
    ensures c < i && PassedAt(j, c, j[i].session, j[i].action) && IsValid(j[c].granted, j[i].action)
  {
    SoundPrefix(j, i);
    c := CheckedAt(j[..i], j[i].session, j[i].action);
    SoundPrefix(j, c);
  }

  /** The request on the ledger is the one recorded at `r`, and it was validated before. */
  lemma RequestMatches(j: seq<Entry>, i: nat, id: ApprovalId, r: nat) returns (c: nat)
    requires Sound(j) && r < i < |j| && j[i].Executed?
    requires j[r].ApprovalRequested? && j[r].approval == id
    requires id in Tally(j[..i]).requested
    requires Tally(j[..i]).requested[id].session == j[i].session && Tally(j[..i]).requested[id].action == j[i].action
    ensures j[r].session == j[i].session && j[r].action == j[i].action
    ensures c < r && PassedAt(j, c, j[i].session, j[i].action)
  {
    var before := j[..i];
    var r' := RequestedAt(before, id);
    if r' < r {
      RequestedOnce(j, r', r);
    } else if r < r' {
      RequestedOnce(j, r, r');
    }
    SoundPrefix(j, r);
    c := CheckedAt(j[..r], j[i].session, j[i].action);
  }

  lemma NeverResolvedOtherwise(j: seq<Entry>, g: nat)
    requires Sound(j) && g < |j| && j[g].ApprovalGranted?
    ensures forall k :: 0 <= k < |j| && (j[k].ApprovalDenied? || j[k].ApprovalExpired?) ==> j[k].approval != j[g].approval
  {
    forall k | 0 <= k < |j| && (j[k].ApprovalDenied? || j[k].ApprovalExpired?)
      ensures j[k].approval != j[g].approval
    {
      if k < g {
        ResolvedOnce(j, k, g);
      } else {
        ResolvedOnce(j, g, k);
      }
    }
  }

  /** Whatever its risk, an executed action is its session's only one, and excludes cancellation. */
  lemma OneShot(j: seq<Entry>, i: nat)
    requires Sound(j) && i < |j| && j[i].Executed?
    ensures forall k :: 0 <= k < |j| && k != i && j[k].Executed? ==> j[k].session != j[i].session
    ensures forall k :: 0 <= k < |j| && j[k].SessionCancelled? ==> j[k].session != j[i].session
  {
    forall k | 0 <= k < |j| && k != i && (j[k].Executed? || j[k].SessionCancelled?)
      ensures j[k].session != j[i].session
    {
      if k < i {
        SoundPrefix(j, i);
        Recorded(j[..i], k);
      } else {
        SoundPrefix(j, k);
        Recorded(j[..k], i);
      }
    }
  }

  // ---- counting ----

  /** The number of entries of a journal that satisfy `p`. */
  function Count(j: seq<Entry>, p: Entry -> bool): nat {
    if j == [] then 0 else Count(j[..|j| - 1], p) + if p(j[|j| - 1]) then 1 else 0
  }

  function Executions(j: seq<Entry>): nat {
    Count(j, (e: Entry) => e.Executed?)
  }

  function Creations(j: seq<Entry>): nat {
    Count(j, (e: Entry) => e.SessionCreated?)
  }

  function Parked(j: seq<Entry>): nat {
    Count(j, (e: Entry) => e.ApprovalRequested?)
  }

  function Grants(j: seq<Entry>): nat {
    Count(j, (e: Entry) => e.ApprovalGranted?)
  }

  function Denials(j: seq<Entry>): nat {
    Count(j, (e: Entry) => e.ApprovalDenied?)
  }

  function Evictions(j: seq<Entry>): nat {
    Count(j, (e: Entry) => e.ApprovalExpired?)
  }

  lemma {:induction false} CountAppend(j: seq<Entry>, k: seq<Entry>, p: Entry -> bool)
    ensures Count(j + k, p) == Count(j, p) + Count(k, p)
  {
    if k == [] {
      assert j + k == j;
    } else {
      var n := |k| - 1;
      CountAppend(j, k[..n], p);
      assert (j + k)[..|j| + n] == j + k[..n];
    }
  }

  /** In a sound journal no execution, creation or approval is recorded twice, so the sets count the entries. */
  lemma {:induction false} CountsAreSizes(j: seq<Entry>)
    requires Sound(j)
    ensures var l := Tally(j);
            && Executions(j) == |l.executed| && Creations(j) == |l.created|
            && Parked(j) == |l.requested|
            && Grants(j) == |l.granted| && Denials(j) == |l.denied| && Evictions(j) == |l.expired|
  {
    if j != [] {
      var n := |j| - 1;
      CountsAreSizes(j[..n]);
      CountsStep(Tally(j[..n]), j[n]);
      RequestsStep(Tally(j[..n]), j[n]);
      Exclusive(j[..n]);
    }
  }

  /** A justified entry adds a new element to the set it is recorded in. */
  lemma CountsStep(l: Ledger, e: Entry)
    requires Justified(l, e)
    ensures var l' := Post(l, e);
            && |l'.created| == |l.created| + (if e.SessionCreated? then 1 else 0)
            && |l'.executed| == |l.executed| + (if e.Executed? then 1 else 0)
            && |l'.granted| == |l.granted| + (if e.ApprovalGranted? then 1 else 0)
            && |l'.denied| == |l.denied| + (if e.ApprovalDenied? then 1 else 0)
            && |l'.expired| == |l.expired| + (if e.ApprovalExpired? then 1 else 0)
  {
    hide Consent, IsValid;
  }

  lemma RequestsStep(l: Ledger, e: Entry)
    requires Justified(l, e)
    ensures |Post(l, e).requested| == |l.requested| + (if e.ApprovalRequested? then 1 else 0)
  {
    hide Consent, OldestOpen, OpenFor, IsValid;
    if e.ApprovalRequested? {
      assert Post(l, e).requested.Keys == l.requested.Keys + {e.approval};
    }
  }

  /** Of everything parked, each approval was granted, denied, evicted or is still open. */
  lemma Conservation(j: seq<Entry>)
    requires Sound(j)
    ensures Parked(j) == Grants(j) + Denials(j) + Evictions(j) + |Open(Tally(j))|
  {
    var l := Tally(j);
    CountsAreSizes(j);
    Exclusive(j);
    assert |l.granted + l.denied| == |l.granted| + |l.denied|;
    assert |Resolved(l)| == |l.granted + l.denied| + |l.expired|;
    assert l.requested.Keys == Resolved(l) + Open(l) && Resolved(l) !! Open(l);
    assert |l.requested| == |l.requested.Keys|;
  }
}
