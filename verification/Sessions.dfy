/** Login sessions: creation with a purge, and touches of last_seen_at by interleaved requests.
    Times are in microseconds. */
module Sessions {
  const TOUCH_INTERVAL := 300000000
  const HOUR := 3600000000

  /** `touches` counts the writes of lastSeen. */
  datatype Session = Session(created: int, hours: nat, expires: int, lastSeen: int, touches: nat)

  /** A request that has read its session, at its own reading of the clock, and may be about to touch it. */
  datatype Pending = Pending(session: nat, at: int)

  datatype World = World(now: int, sessions: map<nat, Session>, used: set<nat>, pending: map<nat, Pending>)

  /** `at` is what the request read from the clock, at or before the step. */
  datatype Event =
    | Create(id: nat, hours: nat, at: int)
    | Read(request: nat, id: nat, at: int)
    | Touch(request: nat)
    | Logout(id: nat)
    | Tick(elapsed: nat)

  predicate Enabled(w: World, e: Event) {
    match e
    case Create(id, hours, at) => id !in w.used && hours >= 1 && at <= w.now
    case Read(request, id, at) => request !in w.pending && at <= w.now && id in w.sessions && w.sessions[id].expires > at
    case Touch(request) => request in w.pending
    case Logout(id) => id in w.sessions
    case Tick(_) => true
  }

  function Purged(sessions: map<nat, Session>, at: int): map<nat, Session> {
    map id | id in sessions && sessions[id].expires > at :: sessions[id]
  }

  predicate IsStale(s: Session, at: int) {
    s.lastSeen <= at - TOUCH_INTERVAL
  }

  function Step(w: World, e: Event): World
    requires Enabled(w, e)
  {
    match e
    case Create(id, hours, at) =>
      w.(sessions := Purged(w.sessions, at)[id := Session(at, hours, at + hours * HOUR, at, 0)], used := w.used + {id})
    case Read(request, id, at) =>
      if IsStale(w.sessions[id], at) then w.(pending := w.pending[request := Pending(id, at)]) else w
    case Touch(request) =>
      var p := w.pending[request];
      var rest := w.(pending := w.pending - {request});
      if p.session in w.sessions && IsStale(w.sessions[p.session], p.at)
      then var s := w.sessions[p.session];
           rest.(sessions := w.sessions[p.session := s.(lastSeen := p.at, touches := s.touches + 1)])
      else rest
    case Logout(id) => w.(sessions := w.sessions - {id})
    case Tick(elapsed) => w.(now := w.now + elapsed)
  }

  ghost predicate Reachable(trace: seq<World>) {
    && trace != [] && trace[0].sessions == map[] && trace[0].used == {} && trace[0].pending == map[]
    && forall i, j | 0 <= i < j < |trace| && j == i + 1 :: Next(trace[i], trace[j])
  }

  ghost predicate Next(w: World, w': World) {
    exists e :: Enabled(w, e) && w' == Step(w, e)
  }

  class SessionStore {
    var now: int
    var sessions: map<nat, Session>
    var used: set<nat>
    var pending: map<nat, Pending>

    ghost function State(): World
      reads this
    {
      World(now, sessions, used, pending)
    }

    constructor (now: int)
      ensures State() == World(now, map[], {}, map[])
    {
      this.now := now;
      sessions, used, pending := map[], {}, map[];
    }

    /** create_session. */
    method CreateSession(id: nat, hours: nat, at: int)
      requires Enabled(State(), Create(id, hours, at))
      modifies this
      ensures State() == Step(old(State()), Create(id, hours, at))
    {
      sessions := map other | other in sessions && sessions[other].expires > at :: sessions[other];
      sessions := sessions[id := Session(at, hours, at + hours * HOUR, at, 0)];
      used := used + {id};
    }

    /** current_session up to the decision to touch; false is the 401. */
    method ReadSession(request: nat, id: nat, at: int) returns (ok: bool)
      requires request !in pending && at <= now
      modifies this
      ensures ok <==> id in old(sessions) && old(sessions)[id].expires > at
      ensures State() == if ok then Step(old(State()), Read(request, id, at)) else old(State())
    {
      if id !in sessions || sessions[id].expires <= at {
        return false;
      }
      var cutoff := at - TOUCH_INTERVAL;
      if sessions[id].lastSeen <= cutoff {
        pending := pending[request := Pending(id, at)];
      }
      ok := true;
    }

    /** The guarded UPDATE. */
    method TouchSession(request: nat) returns (touched: bool)
      requires request in pending
      modifies this
      ensures State() == Step(old(State()), Touch(request))
      ensures touched <==> sessions != old(sessions)
    {
      var p := pending[request];
      pending := pending - {request};
      touched := p.session in sessions && sessions[p.session].lastSeen <= p.at - TOUCH_INTERVAL;
      if touched {
        var s := sessions[p.session];
        sessions := sessions[p.session := s.(lastSeen := p.at, touches := s.touches + 1)];
        assert sessions[p.session].lastSeen != s.lastSeen;
      }
    }
  }

  // ---- invariant ----

  predicate Sane(s: Session) {
    && s.hours >= 1 && s.expires == s.created + s.hours * HOUR
    && s.touches * TOUCH_INTERVAL <= s.lastSeen - s.created && s.lastSeen < s.expires
  }

  ghost predicate Inv(w: World) {
    && (forall id <- w.sessions :: id in w.used && Sane(w.sessions[id]))
    && (forall r <- w.pending :: w.pending[r].session in w.used
          && (w.pending[r].session in w.sessions ==> w.pending[r].at < w.sessions[w.pending[r].session].expires))
  }

  lemma StepKeepsInv(w: World, e: Event)
    requires Inv(w) && Enabled(w, e)
    ensures Inv(Step(w, e))
  {
    if e.Touch? && w.pending[e.request].session in w.sessions {
      TouchKeepsSane(w.sessions[w.pending[e.request].session], w.pending[e.request].at);
    }
  }

  lemma TouchKeepsSane(s: Session, at: int)
    requires Sane(s) && at < s.expires
    ensures IsStale(s, at) ==> Sane(s.(lastSeen := at, touches := s.touches + 1))
  {
  }

  lemma {:induction false} ReachableInv(trace: seq<World>, n: nat)
    requires Reachable(trace) && n < |trace|
    ensures Inv(trace[n])
  {
    if n > 0 {
      ReachableInv(trace, n - 1);
      assert Next(trace[n - 1], trace[n]);
      var e :| Enabled(trace[n - 1], e) && trace[n] == Step(trace[n - 1], e);
      StepKeepsInv(trace[n - 1], e);
    }
  }

  /** A session made for h hours is touched fewer than 12 h times, however its requests interleave. */
  lemma TouchesAreBounded(trace: seq<World>, n: nat, id: nat)
    requires Reachable(trace) && n < |trace| && id in trace[n].sessions
    ensures var s := trace[n].sessions[id];
      s.touches < 12 * s.hours && s.created <= s.lastSeen < s.expires == s.created + s.hours * HOUR
  {
    ReachableInv(trace, n);
  }

  /** A step that changes a session advances its lastSeen by at least five minutes and nothing else. */
  lemma WritesAreSpaced(w: World, e: Event, id: nat)
    requires Inv(w) && Enabled(w, e) && id in w.sessions && id in Step(w, e).sessions
    ensures var s, s' := w.sessions[id], Step(w, e).sessions[id];
      s' == s || (s'.lastSeen >= s.lastSeen + TOUCH_INTERVAL && s' == s.(lastSeen := s'.lastSeen, touches := s.touches + 1))
  {
  }

  /** A session disappears by its own logout or by a purge after it has expired; and a purge takes every
      session expired by its reading of the clock. */
  lemma PurgeTakesOnlyExpired(w: World, e: Event, id: nat)
    requires Inv(w) && Enabled(w, e) && id in w.sessions
    ensures id !in Step(w, e).sessions ==> e == Logout(id) || (e.Create? && w.sessions[id].expires <= e.at <= w.now)
    ensures e.Create? && w.sessions[id].expires <= e.at ==> id !in Step(w, e).sessions
  {
  }

  /** Of two requests that both decided to touch at readings less than five minutes apart, at most one writes. */
  lemma OneOfTwoTouches(w: World, first: nat, second: nat)
    requires first != second && first in w.pending && second in w.pending
    requires w.pending[first].session == w.pending[second].session
    requires w.pending[second].at < w.pending[first].at + TOUCH_INTERVAL
    requires Step(w, Touch(first)).sessions != w.sessions
    ensures Step(Step(w, Touch(first)), Touch(second)).sessions == Step(w, Touch(first)).sessions
  {
  }

  // ---- what single requests do ----

  /** A request on a session idle for five minutes or more, running alone, leaves lastSeen at its own reading of the
      clock; on one idle for less it changes nothing. Either way no other session changes. */
  lemma ReadTouches(w: World, request: nat, id: nat, at: int)
    requires Enabled(w, Read(request, id, at))
    ensures var s, read := w.sessions[id], Step(w, Read(request, id, at));
      if at - s.lastSeen >= 300 * 1000000 then
        && Enabled(read, Touch(request))
        && var after := Step(read, Touch(request));
           && after.sessions == w.sessions[id := s.(lastSeen := at, touches := s.touches + 1)] && after.pending == w.pending
      else read == w
  {
    if at - w.sessions[id].lastSeen >= 300 * 1000000 {
      var read := Step(w, Read(request, id, at));
      assert read.pending - {request} == w.pending;
    }
  }

  /** A new session is seen at once, expires after its hours, and leaves every session alone that has not expired. */
  lemma CreateMeans(w: World, id: nat, hours: nat, at: int)
    requires Enabled(w, Create(id, hours, at))
    ensures var after := Step(w, Create(id, hours, at)).sessions;
      && id in after && after[id].created == after[id].lastSeen == at && after[id].expires == at + hours * 60 * 60 * 1000000
      && forall other | other != id ::
           && (other in after <==> other in w.sessions && w.sessions[other].expires > at)
           && (other in after ==> after[other] == w.sessions[other])
  {
  }

  /** Logging out removes the session and no other. */
  lemma LogoutMeans(w: World, id: nat)
    requires Enabled(w, Logout(id))
    ensures id !in Step(w, Logout(id)).sessions
    ensures forall other | other != id ::
      && (other in Step(w, Logout(id)).sessions <==> other in w.sessions)
      && (other in w.sessions ==> Step(w, Logout(id)).sessions[other] == w.sessions[other])
  {
  }
}
