/**
 HTTP requests with a TLS fallback: a request starts from what the cache knows about the host and
 falls back to accepting invalid certificates and then to the native TLS library. The network decides
 the outcome of each attempt.

 A URL is the part that the cache looks at: the host with its port, and whether the scheme is plain.
 `allowed` is the option that permits insecure fallback; it is off by default.
 */
module TlsFallback {

  import opened Common

  datatype Tls = Plain | Rustls | NativeTls
  datatype Pair = Pair(tls: Tls, acceptInvalid: bool)
  datatype Url = Url(host: string, plain: bool)

  /** `RequestFailed` is an error that the client library attributes to sending the request. */
  datatype Outcome = Success | RequestFailed | OtherFailure

  /** The outcomes of the attempts of one request, in order. */
  type Network = nat -> Outcome

  /** What one request did: the attempts it made and whether the last one succeeded. */
  datatype Trace = Trace(attempts: seq<Pair>, ok: bool)

  function Or<T>(o: Option<T>, default: T): T {
    if o.Some? then o.value else default
  }

  function Unset<T>(o: Option<T>): nat {
    if o.None? then 1 else 0
  }

  /** What the cache says about the library: a plain URL needs none. */
  function CachedType(types: map<string, Tls>, url: Url): Option<Tls> {
    if url.plain then Some(Plain) else Lookup(types, url.host)
  }

  /** What the cache says about certificates: without the option, invalid ones are never accepted. */
  function CachedPolicy(certs: map<string, bool>, allowed: bool, url: Url): Option<bool> {
    if !allowed || url.plain then Some(false) else Lookup(certs, url.host)
  }

  // ---------------------------------------------------------------- the recursion

  /** The arguments of the next attempt after a failed one: first any certificate, then the other library. */
  function Fallback(tls: Option<Tls>, cert: Option<bool>, original: Option<bool>): Option<(Option<Tls>, Option<bool>)> {
    if cert.None? then Some((tls, Some(true)))
    else if tls.None? then Some((Some(NativeTls), original))
    else None
  }

  /** The recursive request, starting with attempt number `n`. */
  function Request(tls: Option<Tls>, cert: Option<bool>, original: Option<bool>, net: Network, n: nat): Trace
    decreases Unset(tls), Unset(cert)
  {
    var pair := Pair(Or(tls, Rustls), Or(cert, false));
    match net(n)
    case Success => Trace([pair], true)
    case OtherFailure => Trace([pair], false)
    case RequestFailed =>
      match Fallback(tls, cert, original)
      case None => Trace([pair], false)
      case Some((tls', cert')) =>
        var t := Request(tls', cert', original, net, n + 1);
        Trace([pair] + t.attempts, t.ok)
  }

  /** The plan of a request: every TLS library left open, and for each every certificate policy left open. */
  function Plan(tls: Option<Tls>, cert: Option<bool>): (r: seq<Pair>)
    ensures 1 <= |r| <= 4
    ensures tls.Some? && cert.Some? ==> r == [Pair(tls.value, cert.value)]
  {
    if tls.Some? then Policies(tls.value, cert) else Policies(Rustls, cert) + Policies(NativeTls, cert)
  }

  function Policies(tls: Tls, cert: Option<bool>): seq<Pair> {
    if cert.Some? then [Pair(tls, cert.value)] else [Pair(tls, false), Pair(tls, true)]
  }

  /** The attempts that are left if all of them fail. */
  function Remaining(tls: Option<Tls>, cert: Option<bool>, original: Option<bool>): seq<Pair>
    decreases Unset(tls), Unset(cert)
  {
    [Pair(Or(tls, Rustls), Or(cert, false))]
    + match Fallback(tls, cert, original)
      case None => []
      case Some((tls', cert')) => Remaining(tls', cert', original)
  }

  lemma PlanRemains(tls: Option<Tls>, cert: Option<bool>)
    ensures Remaining(tls, cert, cert) == Plan(tls, cert)
  {
    var r := Remaining(tls, cert, cert);
    if cert.None? && tls.None? {
      assert Remaining(Some(NativeTls), Some(true), None) == [Pair(NativeTls, true)];
      assert Remaining(Some(NativeTls), None, None) == [Pair(NativeTls, false), Pair(NativeTls, true)];
      assert Remaining(None, Some(true), None) == [Pair(Rustls, true), Pair(NativeTls, false), Pair(NativeTls, true)];
    } else if cert.None? {
      assert Remaining(tls, Some(true), None) == [Pair(tls.value, true)];
    } else if tls.None? {
      assert Remaining(Some(NativeTls), cert, cert) == [Pair(NativeTls, cert.value)];
    }
  }

  /** From attempt number `n` on, the attempts follow the plan up to the first outcome that is not a failed request. */
  ghost predicate Follows(plan: seq<Pair>, net: Network, n: nat, t: Trace) {
    && 0 < |t.attempts| <= |plan| && t.attempts == plan[..|t.attempts|]
    && (forall m: nat :: n <= m < n + |t.attempts| - 1 ==> net(m).RequestFailed?)
    && (net(n + |t.attempts| - 1).RequestFailed? ==> t.attempts == plan)
    && (t.ok <==> net(n + |t.attempts| - 1).Success?)
  }

  lemma FollowsOn(pair: Pair, plan: seq<Pair>, net: Network, n: nat, t: Trace)
    requires net(n).RequestFailed? && Follows(plan, net, n + 1, t)
    ensures Follows([pair] + plan, net, n, Trace([pair] + t.attempts, t.ok))
  {
    var all := [pair] + t.attempts;
    assert n + |all| - 1 == n + 1 + |t.attempts| - 1;
    assert ([pair] + plan)[..|all|] == [pair] + plan[..|t.attempts|];
  }

  lemma {:induction false} RequestFollowsRemaining(tls: Option<Tls>, cert: Option<bool>, original: Option<bool>,
          net: Network, n: nat)
    ensures Follows(Remaining(tls, cert, original), net, n, Request(tls, cert, original, net, n))
    decreases Unset(tls), Unset(cert)
  {
    var pair := Pair(Or(tls, Rustls), Or(cert, false));
    var next := Fallback(tls, cert, original);
    if next.Some? && net(n).RequestFailed? {
      var (tls', cert') := next.value;
      RequestFollowsRemaining(tls', cert', original, net, n + 1);
      FollowsOn(pair, Remaining(tls', cert', original), net, n, Request(tls', cert', original, net, n + 1));
    } else {
      var plan := Remaining(tls, cert, original);
      assert plan[..1] == [pair];
    }
  }

  /** The recursion walks through the plan: at most four attempts, one if both lookups hit. */
  lemma RequestFollowsPlan(tls: Option<Tls>, cert: Option<bool>, net: Network)
    ensures Follows(Plan(tls, cert), net, 0, Request(tls, cert, cert, net, 0))
  {
    RequestFollowsRemaining(tls, cert, cert, net, 0);
    PlanRemains(tls, cert);
  }

  /** Read off the two tables: what a request is tied to. */
  ghost predicate UsesTables(types: map<string, Tls>, certs: map<string, bool>, allowed: bool, url: Url,
          attempts: seq<Pair>)
  {
    && attempts != []
    && (url.plain ==> attempts == [Pair(Plain, false)])
    && (!url.plain && url.host in types && allowed && url.host in certs ==>
          attempts == [Pair(types[url.host], certs[url.host])])
    && (!url.plain && url.host in types && !allowed ==> attempts == [Pair(types[url.host], false)])
    && (!url.plain && url.host in types && allowed && url.host !in certs ==>
          attempts <= [Pair(types[url.host], false), Pair(types[url.host], true)])
    && (!url.plain && url.host !in types && allowed && url.host in certs ==>
          attempts <= [Pair(Rustls, certs[url.host]), Pair(NativeTls, certs[url.host])])
    && (!url.plain && url.host !in types && !allowed ==> attempts <= [Pair(Rustls, false), Pair(NativeTls, false)])
    && (!url.plain && url.host !in types && allowed && url.host !in certs ==>
          attempts <= [Pair(Rustls, false), Pair(Rustls, true), Pair(NativeTls, false), Pair(NativeTls, true)])
  }

  lemma PlanUsesTables(types: map<string, Tls>, certs: map<string, bool>, allowed: bool, url: Url, attempts: seq<Pair>)
    requires attempts != [] && attempts <= Plan(CachedType(types, url), CachedPolicy(certs, allowed, url))
    ensures UsesTables(types, certs, allowed, url, attempts)
  {
    assert |attempts| == 1 ==> attempts == [attempts[0]];
  }

  /** What a request on this URL may do at all, whatever the network does. */
  ghost predicate Lawful(url: Url, allowed: bool, attempts: seq<Pair>) {
    && |attempts| <= 4
    && (url.plain ==> attempts <= [Pair(Plain, false)])
    && (!allowed ==> |attempts| <= 2)
    && forall i :: 0 <= i < |attempts| && attempts[i].acceptInvalid ==> allowed && !url.plain
  }

  lemma PlanIsLawful(types: map<string, Tls>, certs: map<string, bool>, allowed: bool, url: Url, attempts: seq<Pair>)
    requires attempts <= Plan(CachedType(types, url), CachedPolicy(certs, allowed, url))
    ensures Lawful(url, allowed, attempts)
  {
    var plan := Plan(CachedType(types, url), CachedPolicy(certs, allowed, url));
    assert forall i :: 0 <= i < |attempts| ==> attempts[i] == plan[i];
  }

  // ---------------------------------------------------------------- the cache and the two request functions

  /** The header text of the general request, parsed as JSON. */
  datatype Header = Unparsable | NotAnObject | Fields(fields: map<string, string>)

  predicate Sendable(verb: string, header: Header) {
    verb in {"get", "post", "put", "delete"} && header.Fields?
  }

  /** Two tables for hosts that are not plain http. */
  class TlsCache {
    var types: map<string, Tls>
    var certs: map<string, bool>

    constructor ()
      ensures types == map[] && certs == map[]
    {
      types, certs := map[], map[];
    }

    method Upsert(url: Url, pair: Pair)
      modifies this
      ensures types == if url.plain then old(types) else old(types)[url.host := pair.tls]
      ensures certs == if url.plain then old(certs) else old(certs)[url.host := pair.acceptInvalid]
    {
      if url.plain {
        return;
      }
      types := types[url.host := pair.tls];
      certs := certs[url.host := pair.acceptInvalid];
    }

    /** What a finished request leaves in the tables. */
    twostate predicate Gained(url: Url, t: Trace)
      reads this
    {
      && types == (if t.ok && !url.plain && t.attempts != []
                   then old(types)[url.host := t.attempts[|t.attempts| - 1].tls] else old(types))
      && certs == (if t.ok && !url.plain && t.attempts != []
                   then old(certs)[url.host := t.attempts[|t.attempts| - 1].acceptInvalid] else old(certs))
    }

    method PostWithFallback(url: Url, tls: Option<Tls>, cert: Option<bool>, original: Option<bool>, net: Network,
            n: nat)
      returns (t: Trace)
      modifies this
      ensures t == Request(tls, cert, original, net, n) && t.attempts != []
      ensures Gained(url, t)
      decreases Unset(tls), Unset(cert)
    {
      var pair := Pair(Or(tls, Rustls), Or(cert, false));
      var outcome := net(n);
      if tls.Some? && cert.Some? {
        if outcome.Success? {
          Upsert(url, pair);
          return Trace([pair], true);
        }
        return Trace([pair], false);
      }
      if outcome.Success? {
        Upsert(url, pair);
        return Trace([pair], true);
      }
      if (tls.None? || cert.None?) && outcome.RequestFailed? {
        var rest;
        if cert.None? {
          rest := PostWithFallback(url, tls, Some(true), original, net, n + 1);
        } else {
          rest := PostWithFallback(url, Some(NativeTls), original, original, net, n + 1);
        }
        t := Trace([pair] + rest.attempts, rest.ok);
        assert t.attempts[|t.attempts| - 1] == rest.attempts[|rest.attempts| - 1];
        return t;
      }
      return Trace([pair], false);
    }

    /** The general form checks verb and header on every level of its own recursion, before it sends anything. */
    method GetHttpResponse(url: Url, verb: string, header: Header, tls: Option<Tls>, cert: Option<bool>,
                           original: Option<bool>, net: Network, n: nat)
      returns (t: Trace)
      modifies this
      ensures t == if Sendable(verb, header) then Request(tls, cert, original, net, n) else Trace([], false)
      ensures Sendable(verb, header) ==> t.attempts != []
      ensures Gained(url, t)
      decreases Unset(tls), Unset(cert)
    {
      if verb != "get" && verb != "post" && verb != "put" && verb != "delete" {
        return Trace([], false);
      }
      match header {
        case Unparsable => return Trace([], false);
        case NotAnObject => return Trace([], false);
        case Fields(_) =>
      }
      var pair := Pair(Or(tls, Rustls), Or(cert, false));
      var outcome := net(n);
      if tls.Some? && cert.Some? {
        if outcome.Success? {
          Upsert(url, pair);
          return Trace([pair], true);
        }
        return Trace([pair], false);
      }
      if outcome.Success? {
        Upsert(url, pair);
        return Trace([pair], true);
      }
      if (tls.None? || cert.None?) && outcome.RequestFailed? {
        var rest;
        if cert.None? {
          rest := GetHttpResponse(url, verb, header, tls, Some(true), original, net, n + 1);
        } else {
          rest := GetHttpResponse(url, verb, header, Some(NativeTls), original, original, net, n + 1);
        }
        t := Trace([pair] + rest.attempts, rest.ok);
        assert t.attempts[|t.attempts| - 1] == rest.attempts[|rest.attempts| - 1];
        return t;
      }
      return Trace([pair], false);
    }

    /** One undisturbed request: the cache is consulted once and gains only a pair that succeeded. */
    method PostRequest(url: Url, allowed: bool, net: Network) returns (t: Trace)
      modifies this
      ensures Follows(Plan(CachedType(old(types), url), CachedPolicy(old(certs), allowed, url)), net, 0, t)
      ensures UsesTables(old(types), old(certs), allowed, url, t.attempts)
      ensures Lawful(url, allowed, t.attempts) && Gained(url, t)
    {
      var tls := if url.plain then Some(Plain) else Lookup(types, url.host);
      var cert := if !allowed then Some(false) else if url.plain then Some(false) else Lookup(certs, url.host);
      RequestFollowsPlan(tls, cert, net);
      t := PostWithFallback(url, tls, cert, cert, net, 0);
      PlanIsLawful(old(types), old(certs), allowed, url, t.attempts);
      PlanUsesTables(old(types), old(certs), allowed, url, t.attempts);
    }

    /** The general form makes the same attempts, or none if verb or header is bad. */
    method HttpRequest(url: Url, allowed: bool, verb: string, header: Header, net: Network) returns (t: Trace)
      modifies this
      ensures Sendable(verb, header) ==>
                Follows(Plan(CachedType(old(types), url), CachedPolicy(old(certs), allowed, url)), net, 0, t)
      ensures Sendable(verb, header) ==> UsesTables(old(types), old(certs), allowed, url, t.attempts)
      ensures verb !in {"get", "post", "put", "delete"} || !header.Fields? ==> t == Trace([], false)
      ensures Lawful(url, allowed, t.attempts) && Gained(url, t)
    {
      var tls := if url.plain then Some(Plain) else Lookup(types, url.host);
      var cert := if !allowed then Some(false) else if url.plain then Some(false) else Lookup(certs, url.host);
      RequestFollowsPlan(tls, cert, net);
      t := GetHttpResponse(url, verb, header, tls, cert, cert, net, 0);
      PlanIsLawful(old(types), old(certs), allowed, url, t.attempts);
      if Sendable(verb, header) {
        PlanUsesTables(old(types), old(certs), allowed, url, t.attempts);
      }
    }
  }

  // ---------------------------------------------------------------- overlapping requests

  /**
   A request reads one table, then the option and the other table, makes its attempts and writes the tables one
   by one.
   */
  datatype Phase =
    | Looking
    | Trying(tls: Option<Tls>, cert: Option<bool>)
    | StoringType
    | StoringPolicy
    | Finished

  /** A request with what it looked up and the attempts it has made. */
  datatype Job = Job(
    url: Url, allowed: bool, tls: Option<Tls>, cert: Option<bool>, attempts: seq<Pair>, ok: bool, phase: Phase)

  /** The two tables and every request ever begun. */
  datatype System = System(types: map<string, Tls>, certs: map<string, bool>, jobs: seq<Job>)

  const START := System(map[], map[], [])

  datatype Step =
    | Begin(url: Url)
    | ReadPolicy(i: nat, allowed: bool)
    | Attempt(i: nat, outcome: Outcome)
    | WriteType(i: nat)
    | WritePolicy(i: nat)
    | ClearTypes
    | ClearPolicies

  predicate Enabled(sys: System, step: Step) {
    match step
    case ReadPolicy(i, _) => i < |sys.jobs| && sys.jobs[i].phase.Looking?
    case Attempt(i, _) => i < |sys.jobs| && sys.jobs[i].phase.Trying?
    case WriteType(i) => i < |sys.jobs| && sys.jobs[i].phase.StoringType? && sys.jobs[i].attempts != []
    case WritePolicy(i) => i < |sys.jobs| && sys.jobs[i].phase.StoringPolicy? && sys.jobs[i].attempts != []
    case _ => true
  }

  function Attempted(j: Job, outcome: Outcome): Job
    requires j.phase.Trying?
  {
    var tried := j.(attempts := j.attempts + [Pair(Or(j.phase.tls, Rustls), Or(j.phase.cert, false))]);
    match outcome
    case Success => tried.(ok := true, phase := if j.url.plain then Finished else StoringType)
    case OtherFailure => tried.(phase := Finished)
    case RequestFailed =>
      match Fallback(j.phase.tls, j.phase.cert, j.cert)
      case None => tried.(phase := Finished)
      case Some((tls, cert)) => tried.(phase := Trying(tls, cert))
  }

  function Last(j: Job): Pair
    requires j.attempts != []
  {
    j.attempts[|j.attempts| - 1]
  }

  function Next(sys: System, step: Step): System
    requires Enabled(sys, step)
  {
    match step
    case Begin(url) => sys.(jobs := sys.jobs + [Job(url, false, CachedType(sys.types, url), None, [], false, Looking)])
    case ReadPolicy(i, allowed) =>
      var j := sys.jobs[i];
      var cert := CachedPolicy(sys.certs, allowed, j.url);
      sys.(jobs := sys.jobs[i := j.(allowed := allowed, cert := cert, phase := Trying(j.tls, cert))])
    case Attempt(i, outcome) => sys.(jobs := sys.jobs[i := Attempted(sys.jobs[i], outcome)])
    case WriteType(i) =>
      var j := sys.jobs[i];
      sys.(types := sys.types[j.url.host := Last(j).tls], jobs := sys.jobs[i := j.(phase := StoringPolicy)])
    case WritePolicy(i) =>
      var j := sys.jobs[i];
      sys.(certs := sys.certs[j.url.host := Last(j).acceptInvalid], jobs := sys.jobs[i := j.(phase := Finished)])
    case ClearTypes => sys.(types := map[])
    case ClearPolicies => sys.(certs := map[])
  }

  ghost predicate Reaches(sys: System, steps: seq<Step>, sys': System)
    decreases |steps|
  {
    if steps == [] then sys' == sys
    else Enabled(sys, steps[0]) && Reaches(Next(sys, steps[0]), steps[1..], sys')
  }

  // ---------------------------------------------------------------- what a request may attempt

  /** The lookups answered as they must, whatever the tables held. */
  ghost predicate Answered(j: Job) {
    && (j.url.plain ==> j.tls == Some(Plain))
    && (!j.phase.Looking? && (!j.allowed || j.url.plain) ==> j.cert == Some(false))
  }

  /** The attempts made, followed by those that are left, are the plan that the lookups gave. */
  ghost predicate OnPlan(j: Job) {
    && Answered(j)
    && (j.ok ==> !j.phase.Looking? && !j.phase.Trying?)
    && (j.phase.StoringType? || j.phase.StoringPolicy? ==> j.ok && !j.url.plain)
    && match j.phase
       case Looking => j.attempts == []
       case Trying(tls, cert) => j.attempts + Remaining(tls, cert, j.cert) == Plan(j.tls, j.cert)
       case _ => j.attempts != [] && j.attempts <= Plan(j.tls, j.cert)
  }

  ghost predicate AllOnPlan(sys: System) {
    forall i :: 0 <= i < |sys.jobs| ==> OnPlan(sys.jobs[i])
  }

  lemma AttemptOnPlan(j: Job, outcome: Outcome)
    requires OnPlan(j) && j.phase.Trying?
    ensures OnPlan(Attempted(j, outcome))
  {
    var j' := Attempted(j, outcome);
    var next := Fallback(j.phase.tls, j.phase.cert, j.cert);
    var tail := if next.None? then [] else Remaining(next.value.0, next.value.1, j.cert);
    MoveOver(j.attempts, Pair(Or(j.phase.tls, Rustls), Or(j.phase.cert, false)), tail);
    assert j'.attempts + tail == Plan(j.tls, j.cert);
    assert j'.attempts <= j'.attempts + tail;
  }

  lemma MoveOver<T>(made: seq<T>, x: T, left: seq<T>)
    ensures made + ([x] + left) == (made + [x]) + left
  {
  }

  lemma PolicyOnPlan(sys: System, i: nat, allowed: bool)
    requires AllOnPlan(sys) && Enabled(sys, ReadPolicy(i, allowed))
    ensures OnPlan(Next(sys, ReadPolicy(i, allowed)).jobs[i])
  {
    assert OnPlan(sys.jobs[i]);
    var j := Next(sys, ReadPolicy(i, allowed)).jobs[i];
    PlanRemains(j.tls, j.cert);
    assert [] + Remaining(j.tls, j.cert, j.cert) == Plan(j.tls, j.cert);
  }

  lemma StoringOnPlan(j: Job)
    requires OnPlan(j)
    ensures j.phase.StoringType? ==> OnPlan(j.(phase := StoringPolicy))
    ensures j.phase.StoringPolicy? ==> OnPlan(j.(phase := Finished))
  {
  }

  /** A step changes the job it is about and adds at most one job. */
  lemma OtherJobsKept(sys: System, step: Step, k: nat)
    requires Enabled(sys, step) && k < |sys.jobs|
    requires step.ReadPolicy? || step.Attempt? || step.WriteType? || step.WritePolicy? ==> k != step.i
    ensures k < |Next(sys, step).jobs| && Next(sys, step).jobs[k] == sys.jobs[k]
  {
  }

  lemma NextKeepsOnPlan(sys: System, step: Step)
    requires AllOnPlan(sys) && Enabled(sys, step)
    ensures AllOnPlan(Next(sys, step))
  {
    var sys' := Next(sys, step);
    forall k | 0 <= k < |sys'.jobs|
      ensures OnPlan(sys'.jobs[k])
    {
      if k == |sys.jobs| {
        assert step.Begin?;
      } else if (step.ReadPolicy? || step.Attempt? || step.WriteType? || step.WritePolicy?) && k == step.i {
        StoringOnPlan(sys.jobs[k]);
        match step
        case ReadPolicy(i, allowed) => PolicyOnPlan(sys, i, allowed);
        case Attempt(i, outcome) => AttemptOnPlan(sys.jobs[i], outcome);
        case _ =>
      } else {
        OtherJobsKept(sys, step, k);
      }
    }
  }

  lemma {:induction false} RunKeepsOnPlan(sys: System, steps: seq<Step>, sys': System)
    requires AllOnPlan(sys) && Reaches(sys, steps, sys')
    ensures AllOnPlan(sys')
    decreases |steps|
  {
    if steps != [] {
      NextKeepsOnPlan(sys, steps[0]);
      RunKeepsOnPlan(Next(sys, steps[0]), steps[1..], sys');
    }
  }

  lemma OnPlanIsLawful(j: Job)
    requires OnPlan(j)
    ensures Lawful(j.url, j.allowed, j.attempts)
    ensures j.tls.Some? && j.cert.Some? ==> j.attempts <= [Pair(j.tls.value, j.cert.value)]
  {
    if j.phase.Trying? {
      assert j.attempts <= Plan(j.tls, j.cert);
    }
    var plan := Plan(j.tls, j.cert);
    assert !j.phase.Looking? ==> forall i :: 0 <= i < |j.attempts| ==> j.attempts[i] == plan[i];
  }

  /**
   However requests overlap, and whatever the network does: a request makes at most four attempts, at most
   two if it found the option off, and one if the URL is plain or both lookups hit. An attempt that accepts invalid
   certificates belongs to a request that found the option on.
   */
  lemma RequestsAreLawful(steps: seq<Step>, sys: System, i: nat)
    requires Reaches(START, steps, sys) && i < |sys.jobs|
    ensures var j := sys.jobs[i];
            && Lawful(j.url, j.allowed, j.attempts)
            && (j.tls.Some? && j.cert.Some? ==> j.attempts <= [Pair(j.tls.value, j.cert.value)])
            && (j.phase.Finished? ==> j.attempts != [])
  {
    RunKeepsOnPlan(START, steps, sys);
    OnPlanIsLawful(sys.jobs[i]);
  }

  // ---------------------------------------------------------------- what the cache holds

  /** Request `i` succeeded for the host with this pair. */
  predicate SucceededWith(jobs: seq<Job>, i: int, host: string, pair: Pair) {
    && 0 <= i < |jobs| && jobs[i].url == Url(host, false)
    && jobs[i].ok && jobs[i].attempts != [] && Last(jobs[i]) == pair
  }

  ghost predicate Worked(jobs: seq<Job>, host: string, pair: Pair) {
    exists i :: SucceededWith(jobs, i, host, pair)
  }

  ghost predicate TypeWorked(jobs: seq<Job>, host: string, tls: Tls) {
    exists b :: Worked(jobs, host, Pair(tls, b))
  }

  ghost predicate PolicyWorked(jobs: seq<Job>, host: string, acceptInvalid: bool) {
    exists t :: Worked(jobs, host, Pair(t, acceptInvalid))
  }

  /** Each entry, taken alone, comes from a request that succeeded for its host. */
  ghost predicate Vouched(sys: System) {
    && (forall h :: h in sys.types ==> TypeWorked(sys.jobs, h, sys.types[h]))
    && (forall h :: h in sys.certs ==> PolicyWorked(sys.jobs, h, sys.certs[h]))
  }

  /** Success is never forgotten. */
  lemma WorkedStays(sys: System, step: Step, host: string, pair: Pair)
    requires AllOnPlan(sys) && Enabled(sys, step) && Worked(sys.jobs, host, pair)
    ensures Worked(Next(sys, step).jobs, host, pair)
  {
    var i :| SucceededWith(sys.jobs, i, host, pair);
    assert SucceededWith(Next(sys, step).jobs, i, host, pair);
  }

  lemma WriterWorked(sys: System, i: nat)
    requires AllOnPlan(sys) && i < |sys.jobs| && (sys.jobs[i].phase.StoringType? || sys.jobs[i].phase.StoringPolicy?)
    ensures sys.jobs[i].attempts != [] && Worked(sys.jobs, sys.jobs[i].url.host, Last(sys.jobs[i]))
  {
    var j := sys.jobs[i];
    assert OnPlan(j);
    assert j.url == Url(j.url.host, false);
    assert SucceededWith(sys.jobs, i, j.url.host, Last(j));
  }

  lemma PartWorkedStays(sys: System, step: Step, host: string, tls: Tls, acceptInvalid: bool)
    requires AllOnPlan(sys) && Enabled(sys, step)
    ensures TypeWorked(sys.jobs, host, tls) ==> TypeWorked(Next(sys, step).jobs, host, tls)
    ensures PolicyWorked(sys.jobs, host, acceptInvalid) ==> PolicyWorked(Next(sys, step).jobs, host, acceptInvalid)
  {
    if TypeWorked(sys.jobs, host, tls) {
      var b :| Worked(sys.jobs, host, Pair(tls, b));
      WorkedStays(sys, step, host, Pair(tls, b));
    }
    if PolicyWorked(sys.jobs, host, acceptInvalid) {
      var t :| Worked(sys.jobs, host, Pair(t, acceptInvalid));
      WorkedStays(sys, step, host, Pair(t, acceptInvalid));
    }
  }

  lemma WriterVouches(sys: System, step: Step)
    requires AllOnPlan(sys) && Enabled(sys, step) && (step.WriteType? || step.WritePolicy?)
    ensures var j := sys.jobs[step.i];
            TypeWorked(sys.jobs, j.url.host, Last(j).tls) && PolicyWorked(sys.jobs, j.url.host, Last(j).acceptInvalid)
  {
    WriterWorked(sys, step.i);
    var j := sys.jobs[step.i];
    assert Last(j) == Pair(Last(j).tls, Last(j).acceptInvalid);
  }

  lemma NextKeepsVouched(sys: System, step: Step)
    requires AllOnPlan(sys) && Vouched(sys) && Enabled(sys, step)
    ensures Vouched(Next(sys, step))
  {
    var sys' := Next(sys, step);
    if step.WriteType? || step.WritePolicy? {
      WriterVouches(sys, step);
    }
    forall h | h in sys'.types
      ensures TypeWorked(sys'.jobs, h, sys'.types[h])
    {
      PartWorkedStays(sys, step, h, sys'.types[h], false);
    }
    forall h | h in sys'.certs
      ensures PolicyWorked(sys'.jobs, h, sys'.certs[h])
    {
      PartWorkedStays(sys, step, h, Plain, sys'.certs[h]);
    }
  }

  lemma {:induction false} RunKeepsVouched(sys: System, steps: seq<Step>, sys': System)
    requires AllOnPlan(sys) && Vouched(sys) && Reaches(sys, steps, sys')
    ensures AllOnPlan(sys') && Vouched(sys')
    decreases |steps|
  {
    if steps != [] {
      NextKeepsOnPlan(sys, steps[0]);
      NextKeepsVouched(sys, steps[0]);
      RunKeepsVouched(Next(sys, steps[0]), steps[1..], sys');
    }
  }

  /**
   In every run, each cached entry comes from a success; while no request finds the option on, none accepts
   invalid certificates.
   */
  lemma CacheHoldsSuccesses(steps: seq<Step>, sys: System)
    requires Reaches(START, steps, sys)
    ensures Vouched(sys)
    ensures (forall i :: 0 <= i < |sys.jobs| ==> !sys.jobs[i].allowed) ==> forall h :: h in sys.certs ==> !sys.certs[h]
  {
    RunKeepsVouched(START, steps, sys);
    if forall i :: 0 <= i < |sys.jobs| ==> !sys.jobs[i].allowed {
      forall h | h in sys.certs
        ensures !sys.certs[h]
      {
        var t :| Worked(sys.jobs, h, Pair(t, sys.certs[h]));
        var i :| SucceededWith(sys.jobs, i, h, Pair(t, sys.certs[h]));
        OnPlanIsLawful(sys.jobs[i]);
      }
    }
  }

  // ---------------------------------------------------------------- what a request finds

  /** The library that was written last for the host in a run and not cleared since. */
  function LastType(sys: System, steps: seq<Step>, host: string, known: Option<Tls>): Option<Tls>
    decreases |steps|
  {
    if steps == [] || !Enabled(sys, steps[0]) then known
    else
      LastType(Next(sys, steps[0]), steps[1..], host,
        match steps[0]
        case WriteType(i) => if sys.jobs[i].url.host == host then Some(Last(sys.jobs[i]).tls) else known
        case ClearTypes => None
        case _ => known)
  }

  /** Likewise for the certificate policy. */
  function LastPolicy(sys: System, steps: seq<Step>, host: string, known: Option<bool>): Option<bool>
    decreases |steps|
  {
    if steps == [] || !Enabled(sys, steps[0]) then known
    else
      LastPolicy(Next(sys, steps[0]), steps[1..], host,
        match steps[0]
        case WritePolicy(i) => if sys.jobs[i].url.host == host then Some(Last(sys.jobs[i]).acceptInvalid) else known
        case ClearPolicies => None
        case _ => known)
  }

  lemma {:induction false} TablesHoldLastWritten(sys: System, steps: seq<Step>, sys': System, host: string)
    requires Reaches(sys, steps, sys')
    ensures Lookup(sys'.types, host) == LastType(sys, steps, host, Lookup(sys.types, host))
    ensures Lookup(sys'.certs, host) == LastPolicy(sys, steps, host, Lookup(sys.certs, host))
    decreases |steps|
  {
    if steps != [] {
      TablesHoldLastWritten(Next(sys, steps[0]), steps[1..], sys', host);
    }
  }

  /**
   In any run, a request that begins finds the library that was written last for its host, and its policy when it comes
   to read it, unless the URL is plain or it finds the option off; and what it finds is what it is tied to.
   */
  lemma RequestFindsLastWritten(steps: seq<Step>, sys: System, url: Url, i: nat, allowed: bool)
    requires Reaches(START, steps, sys)
    ensures var begun := Next(sys, Begin(url)).jobs;
            && |begun| == |sys.jobs| + 1 && begun[..|sys.jobs|] == sys.jobs
            && begun[|sys.jobs|].url == url && begun[|sys.jobs|].attempts == []
            && begun[|sys.jobs|].tls == if url.plain then Some(Plain) else LastType(START, steps, url.host, None)
    ensures Enabled(sys, ReadPolicy(i, allowed)) ==>
              var before, after := sys.jobs[i], Next(sys, ReadPolicy(i, allowed)).jobs[i];
              && after.url == before.url && after.tls == before.tls && after.allowed == allowed
              && after.phase == Trying(after.tls, after.cert)
              && after.cert == if before.url.plain || !allowed then Some(false)
                               else LastPolicy(START, steps, before.url.host, None)
  {
    TablesHoldLastWritten(START, steps, sys, url.host);
    if Enabled(sys, ReadPolicy(i, allowed)) {
      TablesHoldLastWritten(START, steps, sys, sys.jobs[i].url.host);
    }
  }

  // ---------------------------------------------------------------- torn pairs

  predicate HalfStored(sys: System, i: int, host: string) {
    0 <= i < |sys.jobs| && sys.jobs[i].phase.StoringPolicy? && sys.jobs[i].url.host == host
  }

  /** No request is between its two writes for the host. */
  ghost predicate Settled(sys: System, host: string) {
    forall i :: !HalfStored(sys, i, host)
  }

  /** The two entries of a settled host are a pair that succeeded. */
  ghost predicate Paired(sys: System) {
    forall h :: h in sys.types && h in sys.certs && Settled(sys, h) ==>
      Worked(sys.jobs, h, Pair(sys.types[h], sys.certs[h]))
  }

  /**
   The last open write for a host puts a policy beside a library that another request has written since, and that no
   request succeeded with under this policy.
   */
  ghost predicate Tears(sys: System, step: Step) {
    && step.WritePolicy? && step.i < |sys.jobs| && sys.jobs[step.i].attempts != []
    && var j := sys.jobs[step.i];
       && (forall k :: HalfStored(sys, k, j.url.host) ==> k == step.i)
       && j.url.host in sys.types
       && !Worked(sys.jobs, j.url.host, Pair(sys.types[j.url.host], Last(j).acceptInvalid))
  }

  lemma WorkedBefore(sys: System, i: nat, host: string, pair: Pair)
    requires AllOnPlan(sys) && Enabled(sys, WritePolicy(i))
    ensures Worked(Next(sys, WritePolicy(i)).jobs, host, pair) <==> Worked(sys.jobs, host, pair)
  {
    var sys' := Next(sys, WritePolicy(i));
    if Worked(sys'.jobs, host, pair) {
      var k :| SucceededWith(sys'.jobs, k, host, pair);
      assert SucceededWith(sys.jobs, k, host, pair);
    }
    if Worked(sys.jobs, host, pair) {
      WorkedStays(sys, WritePolicy(i), host, pair);
    }
  }

  lemma SettledAfterPolicy(sys: System, i: nat, host: string)
    requires Enabled(sys, WritePolicy(i))
    ensures Settled(Next(sys, WritePolicy(i)), host) <==>
              forall k :: HalfStored(sys, k, host) ==> k == i
  {
    var sys' := Next(sys, WritePolicy(i));
    forall k
      ensures HalfStored(sys', k, host) <==> HalfStored(sys, k, host) && k != i
    {
    }
  }

  lemma WritePolicyPairsExactly(sys: System, i: nat)
    requires AllOnPlan(sys) && Paired(sys) && Enabled(sys, WritePolicy(i))
    ensures Paired(Next(sys, WritePolicy(i))) <==> !Tears(sys, WritePolicy(i))
  {
    var step := WritePolicy(i);
    var sys' := Next(sys, step);
    var host := sys.jobs[i].url.host;
    SettledAfterPolicy(sys, i, host);
    if host in sys.types {
      WorkedBefore(sys, i, host, Pair(sys.types[host], Last(sys.jobs[i]).acceptInvalid));
    }
    forall h | h != host && h in sys'.types && h in sys'.certs && Settled(sys', h)
      ensures Worked(sys'.jobs, h, Pair(sys'.types[h], sys'.certs[h]))
    {
      SettledAfterPolicy(sys, i, h);
      assert forall k :: HalfStored(sys, k, h) ==> k != i;
      WorkedBefore(sys, i, h, Pair(sys.types[h], sys.certs[h]));
    }
  }

  lemma OtherStepsPair(sys: System, step: Step)
    requires AllOnPlan(sys) && Paired(sys) && Enabled(sys, step) && !step.WritePolicy?
    ensures Paired(Next(sys, step))
  {
    var sys' := Next(sys, step);
    forall h | h in sys'.types && h in sys'.certs && Settled(sys', h)
      ensures Worked(sys'.jobs, h, Pair(sys'.types[h], sys'.certs[h]))
    {
      if step.WriteType? && h == sys.jobs[step.i].url.host {
        assert HalfStored(sys', step.i, h);
      } else {
        forall i
          ensures !HalfStored(sys, i, h)
        {
          assert !HalfStored(sys', i, h);
        }
        WorkedStays(sys, step, h, Pair(sys.types[h], sys.certs[h]));
      }
    }
  }

  /** Every step leaves settled hosts with pairs that succeeded, except exactly such a write. */
  lemma NextPairsExactly(sys: System, step: Step)
    requires AllOnPlan(sys) && Paired(sys) && Enabled(sys, step)
    ensures Paired(Next(sys, step)) <==> !Tears(sys, step)
  {
    if step.WritePolicy? {
      WritePolicyPairsExactly(sys, step.i);
    } else {
      OtherStepsPair(sys, step);
    }
  }

  /**
   It takes two requests that disagree in both: the cached library is another one, and worked under the opposite
   policy.
   */
  lemma TearingTakesTwo(sys: System, i: nat)
    requires AllOnPlan(sys) && Vouched(sys) && Enabled(sys, WritePolicy(i)) && Tears(sys, WritePolicy(i))
    ensures var host := sys.jobs[i].url.host; var own := Last(sys.jobs[i]);
            && sys.types[host] != own.tls
            && Worked(sys.jobs, host, Pair(sys.types[host], !own.acceptInvalid))
  {
    var host := sys.jobs[i].url.host;
    var own := Last(sys.jobs[i]);
    WriterWorked(sys, i);
    assert own == Pair(own.tls, own.acceptInvalid);
    assert TypeWorked(sys.jobs, host, sys.types[host]);
    var b :| Worked(sys.jobs, host, Pair(sys.types[host], b));
    assert b == !own.acceptInvalid;
  }

  /** Nobody starts to store for a host while another request is between its two writes. */
  ghost predicate StoresApart(sys: System, steps: seq<Step>)
    decreases |steps|
  {
    steps == [] ||
    (Enabled(sys, steps[0]) && (steps[0].WriteType? ==> Settled(sys, sys.jobs[steps[0].i].url.host))
     && StoresApart(Next(sys, steps[0]), steps[1..]))
  }

  /** A request between its two writes is alone there, and finds its library in the table unless it was cleared. */
  ghost predicate OwnType(sys: System) {
    && (forall i, k, h :: HalfStored(sys, i, h) && HalfStored(sys, k, h) ==> i == k)
    && forall i, h :: HalfStored(sys, i, h) && sys.jobs[i].attempts != [] && h in sys.types ==>
         sys.types[h] == Last(sys.jobs[i]).tls
  }

  lemma NextKeepsOwnType(sys: System, step: Step)
    requires AllOnPlan(sys) && OwnType(sys) && Enabled(sys, step)
    requires step.WriteType? ==> Settled(sys, sys.jobs[step.i].url.host)
    ensures OwnType(Next(sys, step))
  {
    var sys' := Next(sys, step);
    forall i, h | HalfStored(sys', i, h)
      ensures HalfStored(sys, i, h) || (step.WriteType? && i == step.i)
    {
    }
  }

  lemma OwnTypeNeverTears(sys: System, step: Step)
    requires AllOnPlan(sys) && OwnType(sys) && Enabled(sys, step)
    ensures !Tears(sys, step)
  {
    if step.WritePolicy? {
      WriterWorked(sys, step.i);
      var j := sys.jobs[step.i];
      assert HalfStored(sys, step.i, j.url.host);
      assert Last(j) == Pair(Last(j).tls, Last(j).acceptInvalid);
    }
  }

  lemma {:induction false} RunKeepsPaired(sys: System, steps: seq<Step>, sys': System)
    requires AllOnPlan(sys) && Paired(sys) && OwnType(sys) && Reaches(sys, steps, sys') && StoresApart(sys, steps)
    ensures Paired(sys')
    decreases |steps|
  {
    if steps != [] {
      NextKeepsOnPlan(sys, steps[0]);
      OwnTypeNeverTears(sys, steps[0]);
      NextPairsExactly(sys, steps[0]);
      NextKeepsOwnType(sys, steps[0]);
      RunKeepsPaired(Next(sys, steps[0]), steps[1..], sys');
    }
  }

  /**
   In every run whose stores do not overlap on a host, whatever pair is cached for a settled host has succeeded
   for it.
   */
  lemma CachedPairsSucceeded(steps: seq<Step>, sys: System)
    requires Reaches(START, steps, sys) && StoresApart(START, steps)
    ensures Paired(sys)
  {
    RunKeepsPaired(START, steps, sys);
  }

  /** One more step at the end of a run. */
  lemma {:induction false} Extend(sys: System, steps: seq<Step>, mid: System, step: Step)
    returns (steps': seq<Step>, sys': System)
    requires Reaches(sys, steps, mid) && Enabled(mid, step)
    ensures sys' == Next(mid, step) && Reaches(sys, steps', sys')
    decreases |steps|
  {
    sys' := Next(mid, step);
    if steps == [] {
      steps' := [step];
      assert Reaches(sys', [], sys');
    } else {
      var rest, end := Extend(Next(sys, steps[0]), steps[1..], mid, step);
      steps' := [steps[0]] + rest;
    }
  }

  /** Two requests for a new host succeed: one with any certificate, one with the native library. */
  lemma TwoSuccesses(host: string) returns (steps: seq<Step>, sys: System)
    ensures Reaches(START, steps, sys) && sys.types == map[] && sys.certs == map[] && |sys.jobs| == 2
    ensures sys.jobs[0].url == Url(host, false) == sys.jobs[1].url
    ensures sys.jobs[0].phase.StoringType? && sys.jobs[0].attempts == [Pair(Rustls, false), Pair(Rustls, true)]
    ensures sys.jobs[1].phase.StoringType? && sys.jobs[1].attempts == [Pair(Rustls, false), Pair(NativeTls, false)]
  {
    assert Reaches(START, [], START);
    steps, sys := Extend(START, [], START, Begin(Url(host, false)));
    steps, sys := Extend(START, steps, sys, Begin(Url(host, false)));
    steps, sys := Extend(START, steps, sys, ReadPolicy(0, true));
    steps, sys := Extend(START, steps, sys, ReadPolicy(1, false));
    steps, sys := Extend(START, steps, sys, Attempt(0, RequestFailed));
    steps, sys := Extend(START, steps, sys, Attempt(0, Success));
    steps, sys := Extend(START, steps, sys, Attempt(1, RequestFailed));
    steps, sys := Extend(START, steps, sys, Attempt(1, Success));
  }

  /**
   When both store at once, the cache ends up with a pair that never succeeded: it is the very first that both
   saw fail.
   */
  lemma TornPair(host: string) returns (steps: seq<Step>, sys: System)
    ensures Reaches(START, steps, sys) && Settled(sys, host)
    ensures host in sys.types && host in sys.certs
    ensures !Worked(sys.jobs, host, Pair(sys.types[host], sys.certs[host]))
  {
    steps, sys := TwoSuccesses(host);
    steps, sys := Extend(START, steps, sys, WriteType(1));
    steps, sys := Extend(START, steps, sys, WriteType(0));
    steps, sys := Extend(START, steps, sys, WritePolicy(0));
    steps, sys := Extend(START, steps, sys, WritePolicy(1));
    assert sys.types[host] == Rustls && !sys.certs[host];
    assert Last(sys.jobs[0]) == Pair(Rustls, true) && Last(sys.jobs[1]) == Pair(NativeTls, false);
  }
}
