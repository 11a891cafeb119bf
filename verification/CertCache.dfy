/**
 On-demand certificate issuing: look in the cache, issue outside the lock, and look again before storing. Callers race;
 each locked section is one step that reads the clock once. Issuing itself, which may fail, is a parameter.
 */
module CertCache {
  import opened Wrappers

  type Domain = string
  type TaskId = nat

  const VALIDITY: nat := 30 * 86400

  /** `serial` tells issued certificates apart. */
  datatype Cert = Cert(domain: Domain, serial: nat, issuedAt: int, expiresAt: int)

  /** What a call of get_or_issue does next. */
  datatype Call =
    | Issuing(domain: Domain)
    | Storing(domain: Domain, cert: Cert)
    | Returned(domain: Domain, result: Option<Cert>)

  /** `issued` counts the certificates issued so far. */
  datatype State = State(cache: map<Domain, Cert>, calls: map<TaskId, Call>, issued: nat)

  datatype Event =
    | Lookup(task: TaskId, domain: Domain, now: int)
    | Issue(task: TaskId, ok: bool, now: int)
    | Store(task: TaskId, now: int)
    | Prune(keep: set<Domain>)

  const EMPTY := State(map[], map[], 0)

  /** A stored certificate that has not expired. */
  predicate Fresh(cache: map<Domain, Cert>, d: Domain, now: int) {
    d in cache && cache[d].expiresAt > now
  }

  function Pruned(cache: map<Domain, Cert>, keep: set<Domain>): map<Domain, Cert> {
    map d | d in cache && d in keep :: cache[d]
  }

  function Step(s: State, e: Event): State {
    match e
    case Lookup(t, d, now) =>
      if t in s.calls then s
      else if Fresh(s.cache, d, now) then s.(calls := s.calls[t := Returned(d, Some(s.cache[d]))])
      else s.(calls := s.calls[t := Issuing(d)])
    case Issue(t, ok, now) =>
      if t in s.calls && s.calls[t].Issuing? then
        var d := s.calls[t].domain;
        if ok then
          s.(calls := s.calls[t := Storing(d, Cert(d, s.issued, now, now + VALIDITY))], issued := s.issued + 1)
        else s.(calls := s.calls[t := Returned(d, None)])
      else s
    case Store(t, now) =>
      if t in s.calls && s.calls[t].Storing? then
        var c := s.calls[t];
        if Fresh(s.cache, c.domain, now) then s.(calls := s.calls[t := Returned(c.domain, Some(s.cache[c.domain]))])
        else s.(calls := s.calls[t := Returned(c.domain, Some(c.cert))], cache := s.cache[c.domain := c.cert])
      else s
    case Prune(keep) => s.(cache := Pruned(s.cache, keep))
  }

  function RunFrom(s: State, events: seq<Event>): State
    decreases |events|
  {
    if events == [] then s else RunFrom(Step(s, events[0]), events[1..])
  }

  /** A certificate for `d`, one of those issued so far, good for thirty days. */
  ghost predicate CertOk(s: State, d: Domain, cert: Cert) {
    cert.domain == d && cert.serial < s.issued && cert.expiresAt == cert.issuedAt + 30 * 86400
  }

  ghost predicate CallOk(s: State, c: Call) {
    match c
    case Issuing(_) => true
    case Storing(d, cert) => CertOk(s, d, cert)
    case Returned(d, result) => result.Some? ==> CertOk(s, d, result.value)
  }

  /** Certificates are where they belong, and no two are alike. */
  ghost predicate Inv(s: State) {
    && (forall d :: d in s.cache ==> CertOk(s, d, s.cache[d]))
    && (forall t :: t in s.calls ==> CallOk(s, s.calls[t]))
    && (forall t, u :: t in s.calls && u in s.calls && t != u && s.calls[t].Storing? && s.calls[u].Storing? ==>
          s.calls[t].cert.serial != s.calls[u].cert.serial)
    && (forall t, d :: t in s.calls && s.calls[t].Storing? && d in s.cache ==>
          s.calls[t].cert.serial != s.cache[d].serial)
  }

  lemma StoreKeepsInv(s: State, e: Event)
    requires Inv(s) && e.Store?
    ensures Inv(Step(s, e))
  {
    if e.task in s.calls { assert CallOk(s, s.calls[e.task]); }
  }

  lemma IssueKeepsInv(s: State, e: Event)
    requires Inv(s) && e.Issue?
    ensures Inv(Step(s, e))
  {
    forall t | t in s.calls ensures CallOk(Step(s, e), s.calls[t]) { assert CallOk(s, s.calls[t]); }
  }

  lemma StepKeepsInv(s: State, e: Event)
    requires Inv(s)
    ensures Inv(Step(s, e))
  {
    match e {
      case Store(_, _) => StoreKeepsInv(s, e);
      case Issue(_, _, _) => IssueKeepsInv(s, e);
      case Lookup(_, _, _) =>
      case Prune(_) =>
    }
  }

  lemma {:induction false} RunKeepsInv(s: State, events: seq<Event>)
    requires Inv(s)
    ensures Inv(RunFrom(s, events))
    decreases |events|
  {
    if events != [] {
      StepKeepsInv(s, events[0]);
      RunKeepsInv(Step(s, events[0]), events[1..]);
    }
  }

  /** In every run each stored certificate, and each one handed out, is for the domain it is stored or asked under, and
      good for thirty days from its issuing. */
  lemma CertificatesMatchTheirDomain(events: seq<Event>)
    ensures var s := RunFrom(EMPTY, events);
            && (forall d :: d in s.cache ==>
                  s.cache[d].domain == d && s.cache[d].expiresAt == s.cache[d].issuedAt + 2_592_000)
            && (forall t :: t in s.calls && s.calls[t].Returned? && s.calls[t].result.Some? ==>
                  && s.calls[t].result.value.domain == s.calls[t].domain
                  && s.calls[t].result.value.expiresAt == s.calls[t].result.value.issuedAt + 2_592_000)
  {
    RunKeepsInv(EMPTY, events);
    var s := RunFrom(EMPTY, events);
    forall t | t in s.calls ensures CallOk(s, s.calls[t]) {}
  }

  function TimeOf(e: Event): Option<int> {
    match e
    case Lookup(_, _, now) => Some(now)
    case Issue(_, _, now) => Some(now)
    case Store(_, now) => Some(now)
    case Prune(_) => None
  }

  /** All of it happens before `expiry`, and no prune drops `d`. */
  predicate Undisturbed(events: seq<Event>, d: Domain, expiry: int) {
    forall i :: 0 <= i < |events| ==>
      match events[i]
      case Prune(keep) => d in keep
      case _ => TimeOf(events[i]).value < expiry
  }

  lemma {:induction false} ReturnedCallsStay(s: State, events: seq<Event>, t: TaskId)
    requires t in s.calls && s.calls[t].Returned?
    ensures t in RunFrom(s, events).calls && RunFrom(s, events).calls[t] == s.calls[t]
    decreases |events|
  {
    if events != [] { ReturnedCallsStay(Step(s, events[0]), events[1..], t); }
  }

  /** Until it expires or a prune drops its domain, a stored certificate is never replaced, and every call for the
      domain that returns meanwhile returns that very certificate, unless its own issuing failed. */
  lemma {:induction false} StoredCertificateIsStable(s: State, events: seq<Event>, d: Domain)
    requires d in s.cache && Undisturbed(events, d, s.cache[d].expiresAt)
    ensures var s' := RunFrom(s, events);
            && d in s'.cache && s'.cache[d] == s.cache[d]
            && (forall t :: t in s'.calls && s'.calls[t].Returned? && s'.calls[t].domain == d
                            && !(t in s.calls && s.calls[t].Returned?) ==>
                  s'.calls[t].result.None? || s'.calls[t].result == Some(s.cache[d]))
    decreases |events|
  {
    if events != [] {
      var s1 := Step(s, events[0]);
      assert d in s1.cache && s1.cache[d] == s.cache[d];
      forall i | 0 <= i < |events[1..]| ensures events[1..][i] == events[i + 1] {}
      StoredCertificateIsStable(s1, events[1..], d);
      forall t | t in s1.calls && s1.calls[t].Returned?
        ensures t in RunFrom(s, events).calls && RunFrom(s, events).calls[t] == s1.calls[t]
      {
        ReturnedCallsStay(s1, events[1..], t);
      }
    }
  }

  /** When a call returns a certificate, that certificate is the stored one: the statement above applies from there. */
  lemma ReturnedCertificateIsStored(s: State, e: Event)
    requires Inv(s) && (e.Lookup? || e.Store?)
    ensures var s' := Step(s, e);
            e.task in s'.calls && s'.calls[e.task].Returned? && !(e.task in s.calls && s.calls[e.task].Returned?) ==>
              var c := s'.calls[e.task];
              c.result.Some? && c.domain in s'.cache && s'.cache[c.domain] == c.result.value
  {}

  /** No expired certificate is handed out: what a call returns is unexpired at that moment, or is the certificate the
      call has just been issued itself. */
  lemma NoExpiredCertificate(events: seq<Event>, e: Event)
    ensures var s := RunFrom(EMPTY, events);
            var s' := Step(s, e);
            (e.Lookup? || e.Store?) && e.task in s'.calls && !(e.task in s.calls && s.calls[e.task].Returned?)
            && s'.calls[e.task].Returned? ==>
              && s'.calls[e.task].result.Some?
              && (s'.calls[e.task].result.value.expiresAt > e.now
                  || (e.task in s.calls && s.calls[e.task].Storing?
                      && s'.calls[e.task].result.value == s.calls[e.task].cert
                      && s.calls[e.task].cert.expiresAt == s.calls[e.task].cert.issuedAt + 2_592_000))
  {
    var s := RunFrom(EMPTY, events);
    RunKeepsInv(EMPTY, events);
    if e.Store? && e.task in s.calls { assert CallOk(s, s.calls[e.task]); }
  }

  predicate Of(e: Event, t: TaskId) {
    !e.Prune? && e.task == t
  }

  lemma {:induction false} OthersLeaveCall(s: State, events: seq<Event>, t: TaskId)
    requires forall i :: 0 <= i < |events| ==> !Of(events[i], t)
    ensures t in s.calls <==> t in RunFrom(s, events).calls
    ensures t in s.calls ==> RunFrom(s, events).calls[t] == s.calls[t]
    decreases |events|
  {
    if events != [] {
      assert !Of(events[0], t);
      OthersLeaveCall(Step(s, events[0]), events[1..], t);
    }
  }

  /** One call from start to end, whatever others do in between: an unexpired cached certificate is the answer at once;
      a failed issuing ends the call without one; otherwise the answer is what another caller has stored by the end, if
      it is unexpired, or else the certificate issued, which is stored. */
  lemma CallFromStartToEnd(s: State, t: TaskId, d: Domain, asked: int, between: seq<Event>, ok: bool, issued: int,
                           later: seq<Event>, stored: int)
    requires t !in s.calls && forall i :: 0 <= i < |between| ==> !Of(between[i], t)
    requires forall i :: 0 <= i < |later| ==> !Of(later[i], t)
    ensures var looked := RunFrom(Step(s, Lookup(t, d, asked)), between);
            var before := RunFrom(Step(looked, Issue(t, ok, issued)), later);
            var after := Step(before, Store(t, stored));
            && t in after.calls
            && (d in s.cache && s.cache[d].expiresAt > asked ==> after.calls[t] == Returned(d, Some(s.cache[d])))
            && (d !in s.cache || s.cache[d].expiresAt <= asked ==>
                  if !ok then after.calls[t] == Returned(d, None)
                  else if d in before.cache && before.cache[d].expiresAt > stored then
                    after.calls[t] == Returned(d, Some(before.cache[d])) && after.cache == before.cache
                  else
                    var cert := Cert(d, looked.issued, issued, issued + 2_592_000);
                    after.calls[t] == Returned(d, Some(cert)) && after.cache == before.cache[d := cert])
  {
    OthersLeaveCall(Step(s, Lookup(t, d, asked)), between, t);
    var looked := RunFrom(Step(s, Lookup(t, d, asked)), between);
    OthersLeaveCall(Step(looked, Issue(t, ok, issued)), later, t);
  }

  /** Hence racing callers agree: whoever returns a certificate for `d` at `first`, and whoever returns one in the steps
      after it, before its expiry and without a prune of `d`, return the same certificate. */
  lemma RacingCallersAgree(s: State, first: Event, later: seq<Event>, t: TaskId)
    requires Inv(s) && (first.Lookup? || first.Store?)
    requires !(first.task in s.calls && s.calls[first.task].Returned?)
    requires var s1 := Step(s, first); first.task in s1.calls && s1.calls[first.task].Returned?
    requires var c := Step(s, first).calls[first.task];
             c.result.Some? ==> Undisturbed(later, c.domain, c.result.value.expiresAt)
    ensures var s1, s2 := Step(s, first), RunFrom(Step(s, first), later);
            var c := s1.calls[first.task];
            && c.result.Some?
            && (t in s2.calls && s2.calls[t].Returned? && s2.calls[t].domain == c.domain
                && s2.calls[t].result.Some? && !(t in s1.calls && s1.calls[t].Returned?) ==>
                  s2.calls[t].result == c.result)
  {
    ReturnedCertificateIsStored(s, first);
    StoredCertificateIsStable(Step(s, first), later, Step(s, first).calls[first.task].domain);
  }

  /** Nothing unexpired is ever replaced: a step changes the entry of a domain only if it had expired by then, or a
      prune drops it. */
  lemma OnlyExpiredEntriesChange(s: State, e: Event, d: Domain)
    requires d in s.cache && !(d in Step(s, e).cache && Step(s, e).cache[d] == s.cache[d])
    ensures (e.Store? && s.cache[d].expiresAt <= e.now) || (e.Prune? && d !in e.keep)
  {}

  /** The TLS manager's cache, with a method for each locked section. */
  class TlsManager {
    var certCache: map<Domain, Cert>
    var calls: map<TaskId, Call>
    var issued: nat

    ghost function View(): State reads this {
      State(certCache, calls, issued)
    }

    constructor ()
      ensures View() == EMPTY && Inv(View())
    {
      certCache, calls, issued := map[], map[], 0;
    }

    /** First section of get_or_issue: a fresh cached certificate is the answer. */
    method LookupCached(t: TaskId, domain: Domain, now: int) returns (hit: Option<Cert>)
      requires Inv(View()) && t !in calls
      modifies this
      ensures Inv(View()) && View() == Step(old(View()), Lookup(t, domain, now))
      ensures hit.Some? <==> domain in old(certCache) && old(certCache)[domain].expiresAt > now
      ensures hit.Some? ==> hit.value == old(certCache)[domain]
      ensures certCache == old(certCache)
      ensures calls == old(calls)[t := if hit.Some? then Returned(domain, hit) else Issuing(domain)]
    {
      StepKeepsInv(View(), Lookup(t, domain, now));
      hit := None;
      if domain in certCache && certCache[domain].expiresAt > now { hit := Some(certCache[domain]); }
      calls := calls[t := if hit.Some? then Returned(domain, hit) else Issuing(domain)];
    }

    /** Issuing, outside the lock. */
    method IssueDomainCert(t: TaskId, ok: bool, now: int)
      requires Inv(View()) && t in calls && calls[t].Issuing?
      modifies this
      ensures Inv(View()) && View() == Step(old(View()), Issue(t, ok, now)) && certCache == old(certCache)
      ensures var domain := old(calls)[t].domain;
              if ok then calls == old(calls)[t := Storing(domain, Cert(domain, old(issued), now, now + 2_592_000))]
              else calls == old(calls)[t := Returned(domain, None)]
    {
      StepKeepsInv(View(), Issue(t, ok, now));
      var domain := calls[t].domain;
      if ok {
        calls := calls[t := Storing(domain, Cert(domain, issued, now, now + VALIDITY))];
        issued := issued + 1;
      } else {
        calls := calls[t := Returned(domain, None)];
      }
    }

    /** Second section: if somebody stored a certificate meanwhile, use theirs. */
    method StoreUnlessCached(t: TaskId, now: int) returns (cert: Cert)
      requires Inv(View()) && t in calls && calls[t].Storing?
      modifies this
      ensures Inv(View()) && View() == Step(old(View()), Store(t, now))
      ensures calls[t] == Returned(old(calls[t]).domain, Some(cert))
      ensures var domain := old(calls[t]).domain;
              && cert == (if domain in old(certCache) && old(certCache)[domain].expiresAt > now
                          then old(certCache)[domain] else old(calls[t]).cert)
              && certCache == old(certCache)[domain := cert]
    {
      StepKeepsInv(View(), Store(t, now));
      var c := calls[t];
      if c.domain in certCache && certCache[c.domain].expiresAt > now {
        cert := certCache[c.domain];
      } else {
        cert := c.cert;
        certCache := certCache[c.domain := cert];
      }
      calls := calls[t := Returned(c.domain, Some(cert))];
    }

    /** Keep exactly the given domains' certificates, and count the others. */
    method PruneTo(keep: set<Domain>) returns (removed: nat)
      requires Inv(View())
      modifies this
      ensures Inv(View()) && View() == Step(old(View()), Prune(keep))
      ensures certCache.Keys == old(certCache).Keys * keep
      ensures forall d :: d in certCache ==> certCache[d] == old(certCache)[d]
      ensures removed == |old(certCache).Keys - keep|
    {
      StepKeepsInv(View(), Prune(keep));
      var before := |certCache|;
      assert certCache.Keys == (certCache.Keys * keep) + (certCache.Keys - keep);
      certCache := map d | d in certCache && d in keep :: certCache[d];
      assert certCache.Keys == old(certCache).Keys * keep;
      removed := before - |certCache|;
    }
  }
}
