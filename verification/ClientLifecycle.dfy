/**
 The client's cached proxy: any number of threads fetch it, drop it, or are told that the
 remote service died, under three mutexes.

 A thread advances from one lock operation to the next; what it does in between happens
 in one step, and a return releases all mutexes it still holds.  The outcomes of calls
 into other services are arbitrary choices.  The shared fields live in the class
 `DistributedBundleMgrClient`; its methods are the critical sections.
 */
module ClientLifecycle {
  import opened Wrappers

  /** A remote object and a death recipient are named by numbers that are never reused. */
  type Remote = nat
  type Recipient = nat

  /** `registered` is what has been added to remote objects and not been removed since. */
  datatype Shared = Shared(dProxy: Option<Remote>, recipient: Option<Recipient>, isInit: bool,
                           registered: set<(Remote, Recipient)>, nextId: nat)

  function AdoptStep(c: Shared, remote: Remote): Shared {
    c.(dProxy := Some(remote))
  }

  /** A new recipient replaces the field; a remote that is already dead refuses it. */
  function RegisterStep(c: Shared, alive: set<Remote>): Shared {
    if c.dProxy.None? then c
    else c.(recipient := Some(c.nextId), nextId := c.nextId + 1,
            registered := if c.dProxy.value in alive then c.registered + {(c.dProxy.value, c.nextId)} else c.registered)
  }

  function ResetStep(c: Shared): Shared {
    c.(dProxy := None,
       registered := if c.dProxy.Some? && c.recipient.Some?
                     then c.registered - {(c.dProxy.value, c.recipient.value)} else c.registered)
  }

  class DistributedBundleMgrClient {
    var dProxy: Option<Remote>
    var recipient: Option<Recipient>
    var isInit: bool
    var registered: set<(Remote, Recipient)>
    var nextId: nat

    constructor ()
      ensures View() == Shared(None, None, false, {}, 0)
    {
      dProxy, recipient, isInit, registered, nextId := None, None, false, {}, 0;
    }

    function View(): Shared
      reads this
    {
      Shared(dProxy, recipient, isInit, registered, nextId)
    }

    /** `ResetDistributedBundleMgrProxy`, under `dProxyMutex_`. */
    method Reset()
      modifies this
      ensures View() == ResetStep(old(View()))
    {
      if dProxy.Some? && recipient.Some? {
        registered := registered - {(dProxy.value, recipient.value)};
      }
      dProxy := None;
    }

    /** Either load section of `LoadDistributedBundleMgrService`, under `dProxyMutex_`. */
    method Adopt(remoteObject: Option<Remote>) returns (loaded: bool)
      modifies this
      ensures loaded == remoteObject.Some?
      ensures View() == if loaded then AdoptStep(old(View()), remoteObject.value) else old(View())
    {
      if remoteObject.None? {
        return false;
      }
      dProxy := Some(remoteObject.value);
      return true;
    }

    /** The last section of `GetDistributedBundleMgrProxy`, under `dProxyMutex_`. */
    method Register(alive: set<Remote>) returns (proxy: Option<Remote>)
      modifies this
      ensures View() == RegisterStep(old(View()), alive)
      ensures proxy == old(dProxy)
    {
      if dProxy.None? {
        return None;
      }
      recipient := Some(nextId);
      if dProxy.value in alive {
        registered := registered + {(dProxy.value, nextId)};
      }
      nextId := nextId + 1;
      return dProxy;
    }

    /** `InitDeviceManager`, under `isInitMutex_`; `initialised` is what the device manager answers. */
    method InitDeviceManager(initialised: bool) returns (ok: bool)
      modifies this
      ensures View() == old(View()).(isInit := ok)
      ensures ok == (old(isInit) || initialised)
    {
      if isInit {
        return true;
      }
      if !initialised {
        return false;
      }
      isInit := true;
      return true;
    }

    /** `LoadDistributedBundleMgrService` without interference. */
    method Load(a: Answers) returns (loaded: bool)
      modifies this
      ensures loaded == Found(old(View()), a).Some?
      ensures View() == Adopted(old(View()), a)
      ensures !a.samgr ==> !loaded && View() == old(View())
      ensures a.samgr && a.checked.Some? ==> loaded && View() == old(View()).(dProxy := a.checked)
      ensures a.samgr && a.checked.None? && !old(isInit) && !a.initialised ==> !loaded && View() == old(View())
      ensures a.samgr && a.checked.None? && (old(isInit) || a.initialised) ==>
                && loaded == (a.networked && a.loaded.Some?)
                && View() == old(View()).(isInit := true, dProxy := if loaded then a.loaded else old(dProxy))
    {
      if !a.samgr {
        return false;
      }
      loaded := Adopt(a.checked);
      if loaded {
        return true;
      }
      var ready := InitDeviceManager(a.initialised);
      if !ready || !a.networked {
        return false;
      }
      loaded := Adopt(a.loaded);
    }

    /** `GetDistributedBundleMgrProxy` without interference: the cached proxy, or a found one with a fresh recipient. */
    method GetDistributedBundleMgrProxy(a: Answers, alive: set<Remote>) returns (proxy: Option<Remote>)
      modifies this
      ensures old(dProxy).Some? ==> proxy == old(dProxy) && View() == old(View())
      ensures old(dProxy).None? ==>
                && proxy == Found(old(View()), a)
                && View() == if proxy.Some? then RegisterStep(Adopted(old(View()), a), alive) else Adopted(old(View()), a)
      // Without service manager, initialisation or a trusted device nothing is returned and nothing cached.
      ensures old(dProxy).None? ==> dProxy == proxy
      ensures old(dProxy).None? && (!a.samgr || (a.checked.None? && !old(isInit) && !a.initialised)) ==>
                proxy == None && View() == old(View())
      ensures old(dProxy).None? && a.samgr && a.checked.Some? ==> proxy == a.checked && isInit == old(isInit)
      ensures old(dProxy).None? && a.samgr && a.checked.None? && (old(isInit) || a.initialised) ==>
                proxy == (if a.networked then a.loaded else None) && isInit
      // What is returned has a fresh recipient, added if the remote is alive.
      ensures old(dProxy).None? ==>
                && recipient == (if proxy.Some? then Some(old(nextId)) else old(recipient))
                && registered == (if proxy.Some? && proxy.value in alive
                                  then old(registered) + {(proxy.value, old(nextId))} else old(registered))
    {
      if dProxy.Some? {
        return dProxy;
      }
      var loaded := Load(a);
      if !loaded {
        return None;
      }
      proxy := Register(alive);
    }
  }

  /** What the other services answer during one call of the getter. */
  datatype Answers = Answers(samgr: bool, checked: Option<Remote>, initialised: bool, networked: bool, loaded: Option<Remote>)

  function Found(c: Shared, a: Answers): Option<Remote> {
    if !a.samgr then None
    else if a.checked.Some? then a.checked
    else if (c.isInit || a.initialised) && a.networked then a.loaded
    else None
  }

  function Adopted(c: Shared, a: Answers): Shared {
    if !a.samgr then c
    else if a.checked.Some? then AdoptStep(c, a.checked.value)
    else
      var c1 := c.(isInit := c.isInit || a.initialised);
      if c1.isInit && a.networked && a.loaded.Some? then AdoptStep(c1, a.loaded.value) else c1
  }

  // ---------------------------------------------------------------------------
  // Threads
  // ---------------------------------------------------------------------------

  datatype Lock = GetProxy | DProxy | IsInit

  type Notice = (Remote, Recipient)

  /** Where a thread stands: about to lock, or inside, one of the sections; `Done` carries the result. */
  datatype Pc =
    | WantGet | WantCheck | Check
    | Samgr | WantCheckSa | CheckSa
    | WantInit | Init | Devices
    | WantLoad | Load
    | WantRegister | Register
    | WantReset(notice: Option<Notice>) | Reset(notice: Option<Notice>)
    | Done(proxy: Option<Remote>)

  /** What the other services answer in a step: failure, success, or a remote object. */
  datatype Choice = Fail | Go | Give(remote: Remote)

  function Holds(pc: Pc): set<Lock> {
    match pc
    case WantGet => {}
    case Check => {GetProxy, DProxy}
    case CheckSa => {GetProxy, DProxy}
    case Init => {GetProxy, IsInit}
    case Load => {GetProxy, DProxy}
    case Register => {GetProxy, DProxy}
    case WantReset(_) => {}
    case Reset(_) => {DProxy}
    case Done(_) => {}
    case _ => {GetProxy}
  }

  function Wants(pc: Pc): set<Lock> {
    match pc
    case WantGet => {GetProxy}
    case WantCheck => {DProxy}
    case WantCheckSa => {DProxy}
    case WantInit => {IsInit}
    case WantLoad => {DProxy}
    case WantRegister => {DProxy}
    case WantReset(_) => {DProxy}
    case _ => {}
  }

  function After(pc: Pc, c: Shared, alive: set<Remote>, choice: Choice): (Pc, Shared) {
    match pc
    case WantGet => (WantCheck, c)
    case WantCheck => (Check, c)
    case Check => if c.dProxy.Some? then (Done(c.dProxy), c) else (Samgr, c)
    case Samgr => if choice.Fail? then (Done(None), c) else (WantCheckSa, c)
    case WantCheckSa => (CheckSa, c)
    case CheckSa => if choice.Give? then (WantRegister, AdoptStep(c, choice.remote)) else (WantInit, c)
    case WantInit => (Init, c)
    case Init => if !c.isInit && choice.Fail? then (Done(None), c) else (Devices, c.(isInit := true))
    case Devices => if choice.Fail? then (Done(None), c) else (WantLoad, c)
    case WantLoad => (Load, c)
    case Load => if choice.Give? then (WantRegister, AdoptStep(c, choice.remote)) else (Done(None), c)
    case WantRegister => (Register, c)
    case Register => (Done(c.dProxy), RegisterStep(c, alive))
    case WantReset(notice) => (Reset(notice), c)
    case Reset(_) => (Done(None), ResetStep(c))
    case Done(_) => (pc, c)
  }

  /**
   Where a getter ends: with a cached proxy, or after adding a recipient, or at the first of
   its failures; what it changes on the way, and that it adopts what it was given.
   */
  lemma GetterStep(pc: Pc, c: Shared, alive: set<Remote>, choice: Choice)
    requires !pc.WantReset? && !pc.Reset? && !pc.Done?
    ensures var (pc', c') := After(pc, c, alive, choice);
            && (pc'.Done? <==>
                  || (pc.Check? && c.dProxy.Some?)
                  || (pc.Samgr? && choice.Fail?)
                  || (pc.Init? && !c.isInit && choice.Fail?)
                  || (pc.Devices? && choice.Fail?)
                  || (pc.Load? && !choice.Give?)
                  || pc.Register?)
            && (pc'.Done? ==> pc'.proxy == if pc.Check? || pc.Register? then c.dProxy else None)
            && c'.dProxy == (if (pc.CheckSa? || pc.Load?) && choice.Give? then Some(choice.remote) else c.dProxy)
            && c'.isInit == (c.isInit || (pc.Init? && !choice.Fail?))
            && (!pc.Register? ==> c'.recipient == c.recipient && c'.registered == c.registered)
            && (pc.Register? && c.dProxy.Some? ==>
                  && c'.recipient == Some(c.nextId)
                  && c'.registered == if c.dProxy.value in alive then c.registered + {(c.dProxy.value, c.nextId)} else c.registered)
  {}

  /** `born` bounds the remotes seen so far; a remote once dead stays dead. */
  datatype State = State(c: Shared, locks: map<Lock, nat>, threads: map<nat, Pc>,
                         alive: set<Remote>, born: nat, notices: set<Notice>)

  predicate Enabled(s: State, t: nat, choice: Choice) {
    && t in s.threads && !s.threads[t].Done?
    && Wants(s.threads[t]) !! s.locks.Keys
    && (choice.Give? ==> choice.remote < s.born)
  }

  function Advance(s: State, t: nat, choice: Choice): State
    requires Enabled(s, t, choice)
  {
    var pc := s.threads[t];
    var (pc', c') := After(pc, s.c, s.alive, choice);
    s.(c := c', threads := s.threads[t := pc'],
       locks := map l | l in (s.locks.Keys - Holds(pc)) + Holds(pc') :: if l in Holds(pc') then t else s.locks[l])
  }

  ghost predicate InitState(s: State) {
    s == State(Shared(None, None, false, {}, 0), map[], map[], {}, 0, {})
  }

  ghost predicate Next(s: State, s': State) {
    || (exists t, choice :: Enabled(s, t, choice) && s' == Advance(s, t, choice))
    || Call(s, s')
    || Environment(s, s')
  }

  /** A new thread asks for the proxy, or resets it unprompted. */
  ghost predicate Call(s: State, s': State) {
    exists t: nat | t !in s.threads ::
      s' == s.(threads := s.threads[t := WantGet]) || s' == s.(threads := s.threads[t := WantReset(None)])
  }

  /** The service starts, dies, or the notice of a death is delivered to its recipient on a new thread. */
  ghost predicate Environment(s: State, s': State) {
    || s' == s.(alive := s.alive + {s.born}, born := s.born + 1)
    || (exists r | r in s.alive :: s' == Dies(s, r))
    || (exists n, t: nat | n in s.notices && t !in s.threads :: s' == Delivers(s, n, t))
  }

  ghost function Dies(s: State, r: Remote): State {
    s.(alive := s.alive - {r}, notices := s.notices + set p | p in s.c.registered && p.0 == r)
  }

  function Delivers(s: State, n: Notice, t: nat): State {
    s.(notices := s.notices - {n}, threads := s.threads[t := WantReset(Some(n))])
  }

  ghost predicate IsRun(trace: seq<State>) {
    && trace != []
    && InitState(trace[0])
    && forall i | 0 <= i < |trace| - 1 :: Next(trace[i], trace[i + 1])
  }

  // ---------------------------------------------------------------------------
  // Invariants
  // ---------------------------------------------------------------------------

  /** A mutex is held exactly by the thread whose position says so. */
  ghost predicate LocksMatch(s: State) {
    && (forall l | l in s.locks :: s.locks[l] in s.threads && l in Holds(s.threads[s.locks[l]]))
    && (forall t | t in s.threads :: HasItsLocks(s, t))
  }

  ghost predicate HasItsLocks(s: State, t: nat)
    requires t in s.threads
  {
    forall l | l in Holds(s.threads[t]) :: l in s.locks && s.locks[l] == t
  }

  /** Positions between finding no proxy and the end of registration. */
  predicate InWindow(pc: Pc) {
    match pc
    case WantGet => false
    case WantCheck => false
    case Check => false
    case WantReset(_) => false
    case Reset(_) => false
    case Done(_) => false
    case _ => true
  }

  /** Positions between finding no proxy and adopting one. */
  predicate BeforeAdoption(pc: Pc) {
    InWindow(pc) && !pc.WantRegister? && !pc.Register?
  }

  ghost predicate WindowOpen(s: State) {
    exists t | t in s.threads :: InWindow(s.threads[t])
  }

  predicate Current(c: Shared, p: Notice) {
    c.dProxy == Some(p.0) && c.recipient == Some(p.1)
  }

  /**
   Only the current recipient can be registered, and only on the cached proxy; nothing is
   registered while a getter is between lookup and registration; otherwise a cached proxy
   without its registration belongs to a dead remote.
   */
  ghost predicate RegistrationFits(c: Shared, windowOpen: bool, alive: set<Remote>) {
    && (forall p | p in c.registered :: Current(c, p))
    && (windowOpen ==> c.registered == {})
    && (!windowOpen && c.dProxy.Some? ==>
          && c.recipient.Some?
          && ((c.dProxy.value, c.recipient.value) in c.registered || c.dProxy.value !in alive))
  }

  /** The notice is undelivered, or its delivery has not reached the reset yet. */
  ghost predicate Outstanding(s: State, n: Notice) {
    || n in s.notices
    || exists t | t in s.threads :: s.threads[t] == WantReset(Some(n)) || s.threads[t] == Reset(Some(n))
  }

  ghost predicate Inv(s: State) {
    && LocksMatch(s)
    && (forall r | r in s.alive :: r < s.born)
    && (s.c.dProxy.Some? ==> s.c.dProxy.value < s.born)
    && (forall t | t in s.threads && BeforeAdoption(s.threads[t]) :: s.c.dProxy.None?)
    && RegistrationFits(s.c, WindowOpen(s), s.alive)
    && (forall p | p in s.c.registered && p.0 !in s.alive :: Outstanding(s, p))
  }

  lemma NoTwoHolders(s: State, t: nat, t': nat, l: Lock)
    requires LocksMatch(s) && t in s.threads && t' in s.threads
    requires l in Holds(s.threads[t]) && l in Holds(s.threads[t'])
    ensures t == t'
  {
    assert HasItsLocks(s, t) && HasItsLocks(s, t');
  }

  lemma StepKeepsHeld(pc: Pc, c: Shared, alive: set<Remote>, choice: Choice)
    ensures Holds(After(pc, c, alive, choice).0) <= Holds(pc) + Wants(pc)
  {}

  lemma AdvanceKeepsLocks(s: State, t: nat, choice: Choice)
    requires LocksMatch(s) && Enabled(s, t, choice)
    ensures LocksMatch(Advance(s, t, choice))
  {
    hide Holds, After, Wants;
    StepKeepsHeld(s.threads[t], s.c, s.alive, choice);
    var s' := Advance(s, t, choice);
    assert HasItsLocks(s, t);
    forall t' | t' in s'.threads ensures HasItsLocks(s', t') {
      if t' != t {
        assert HasItsLocks(s, t') && s'.threads[t'] == s.threads[t'];
      }
    }
  }

  /** Only one thread at a time is in the window: it holds `getProxyMutex_`. */
  lemma WindowIsExclusive(s: State, t: nat, t': nat)
    requires LocksMatch(s) && t in s.threads && t' in s.threads
    requires InWindow(s.threads[t]) && GetProxy in Holds(s.threads[t'])
    ensures t == t'
  {
    NoTwoHolders(s, t, t', GetProxy);
  }

  /** How a step of one thread moves the window. */
  lemma AdvanceWindow(s: State, t: nat, choice: Choice)
    requires LocksMatch(s) && Enabled(s, t, choice)
    ensures var pc := s.threads[t];
            var s' := Advance(s, t, choice);
            && (InWindow(pc) ==> WindowOpen(s))
            && (GetProxy in Holds(pc) ==>
                  && (WindowOpen(s) <==> InWindow(pc)) && (WindowOpen(s') <==> InWindow(s'.threads[t]))
                  && forall t' | t' in s.threads && t' != t :: !InWindow(s.threads[t']))
            && (GetProxy !in Holds(pc) ==> (WindowOpen(s') <==> WindowOpen(s)))
  {
    var s' := Advance(s, t, choice);
    var pc := s.threads[t];
    if GetProxy in Holds(pc) {
      forall t' | t' in s.threads && InWindow(s.threads[t']) ensures t' == t {
        WindowIsExclusive(s, t', t);
      }
    } else {
      assert !InWindow(pc) && !InWindow(s'.threads[t]);
      if WindowOpen(s) {
        var t' :| t' in s.threads && InWindow(s.threads[t']);
        assert s'.threads[t'] == s.threads[t'];
      }
    }
  }

  /** The effect of a step on the registration, seen from the shared fields alone. */
  lemma StepKeepsRegistration(pc: Pc, c: Shared, alive: set<Remote>, choice: Choice, open: bool, open': bool)
    requires RegistrationFits(c, open, alive)
    requires BeforeAdoption(pc) ==> c.dProxy.None?
    requires var pc' := After(pc, c, alive, choice).0;
             if GetProxy in Holds(pc) then open == InWindow(pc) && open' == InWindow(pc') else open' == open
    ensures var (pc', c') := After(pc, c, alive, choice);
            && RegistrationFits(c', open', alive)
            && (BeforeAdoption(pc') ==> c'.dProxy.None?)
            && (c.dProxy.None? && c'.dProxy.Some? ==> pc.CheckSa? || pc.Load?)
  {}

  lemma AdvanceKeepsOutstanding(s: State, t: nat, choice: Choice, p: Notice)
    requires Enabled(s, t, choice) && !s.threads[t].Reset? && Outstanding(s, p)
    ensures Outstanding(Advance(s, t, choice), p)
  {
    var s' := Advance(s, t, choice);
    if p !in s.notices {
      var t' :| t' in s.threads && (s.threads[t'] == WantReset(Some(p)) || s.threads[t'] == Reset(Some(p)));
      assert t' in s'.threads && (s'.threads[t'] == WantReset(Some(p)) || s'.threads[t'] == Reset(Some(p)));
    }
  }

  lemma StepKeepsBounds(pc: Pc, c: Shared, alive: set<Remote>, choice: Choice, born: nat)
    requires (c.dProxy.Some? ==> c.dProxy.value < born) && (choice.Give? ==> choice.remote < born)
    ensures var c' := After(pc, c, alive, choice).1; c'.dProxy.Some? ==> c'.dProxy.value < born
  {}

  /** Before adoption nothing is cached: only the getter itself could have changed that. */
  lemma AdvanceKeepsUnadopted(s: State, t: nat, choice: Choice)
    requires Inv(s) && Enabled(s, t, choice)
    ensures var s' := Advance(s, t, choice);
            forall t' | t' in s'.threads && BeforeAdoption(s'.threads[t']) :: s'.c.dProxy.None?
  {
    var s' := Advance(s, t, choice);
    AdvanceWindow(s, t, choice);
    StepKeepsRegistration(s.threads[t], s.c, s.alive, choice, WindowOpen(s), WindowOpen(s'));
    hide LocksMatch, WindowOpen, Outstanding, RegistrationFits;
    forall t' | t' in s'.threads && BeforeAdoption(s'.threads[t']) ensures s'.c.dProxy.None? {
      if t' != t {
        assert s.threads[t'] == s'.threads[t'];
      }
    }
  }

  lemma AdvanceKeepsNotices(s: State, t: nat, choice: Choice)
    requires Inv(s) && Enabled(s, t, choice)
    ensures var s' := Advance(s, t, choice);
            forall p | p in s'.c.registered && p.0 !in s'.alive :: Outstanding(s', p)
  {
    var s' := Advance(s, t, choice);
    hide LocksMatch, WindowOpen, Outstanding;
    forall p | p in s'.c.registered && p.0 !in s'.alive ensures Outstanding(s', p) {
      assert !s.threads[t].Reset?;
      assert p in s.c.registered;
      AdvanceKeepsOutstanding(s, t, choice, p);
    }
  }

  lemma AdvanceInv(s: State, t: nat, choice: Choice)
    requires Inv(s) && Enabled(s, t, choice)
    ensures Inv(Advance(s, t, choice))
  {
    var s' := Advance(s, t, choice);
    AdvanceKeepsLocks(s, t, choice);
    AdvanceWindow(s, t, choice);
    StepKeepsRegistration(s.threads[t], s.c, s.alive, choice, WindowOpen(s), WindowOpen(s'));
    StepKeepsBounds(s.threads[t], s.c, s.alive, choice, s.born);
    AdvanceKeepsUnadopted(s, t, choice);
    AdvanceKeepsNotices(s, t, choice);
    hide LocksMatch, WindowOpen, Outstanding, RegistrationFits, After, Holds, Wants, BeforeAdoption;
  }

  lemma NewThreadInv(s: State, t: nat, pc: Pc)
    requires Inv(s) && t !in s.threads
    requires Holds(pc) == {} && !InWindow(pc)
    ensures Inv(s.(threads := s.threads[t := pc]))
  {
    var s' := s.(threads := s.threads[t := pc]);
    assert WindowOpen(s') <==> WindowOpen(s) by {
      if WindowOpen(s) {
        var t' :| t' in s.threads && InWindow(s.threads[t']);
        assert s'.threads[t'] == s.threads[t'];
      }
    }
    forall p | Outstanding(s, p) ensures Outstanding(s', p) {
      if p !in s.notices {
        var t' :| t' in s.threads && (s.threads[t'] == WantReset(Some(p)) || s.threads[t'] == Reset(Some(p)));
        assert s'.threads[t'] == s.threads[t'];
      }
    }
  }

  lemma DeliversInv(s: State, n: Notice, t: nat)
    requires Inv(s) && n in s.notices && t !in s.threads
    ensures Inv(Delivers(s, n, t))
  {
    NewThreadInv(s, t, WantReset(Some(n)));
    var mid, s' := s.(threads := s.threads[t := WantReset(Some(n))]), Delivers(s, n, t);
    assert WindowOpen(s') <==> WindowOpen(mid);
    forall p | Outstanding(mid, p) ensures Outstanding(s', p) {
      if p == n {
        assert s'.threads[t] == WantReset(Some(p));
      } else if p !in mid.notices {
        var t' :| t' in mid.threads && (mid.threads[t'] == WantReset(Some(p)) || mid.threads[t'] == Reset(Some(p)));
        assert s'.threads[t'] == mid.threads[t'];
      }
    }
  }

  lemma DiesInv(s: State, r: Remote)
    requires Inv(s) && r in s.alive
    ensures Inv(Dies(s, r))
  {
    var s' := Dies(s, r);
    assert s'.threads == s.threads;
    assert WindowOpen(s') <==> WindowOpen(s);
    forall p | p in s'.c.registered && p.0 !in s'.alive ensures Outstanding(s', p) {
      if p.0 != r {
        assert Outstanding(s, p);
        if p !in s.notices {
          var t' :| t' in s.threads && (s.threads[t'] == WantReset(Some(p)) || s.threads[t'] == Reset(Some(p)));
          assert s'.threads[t'] == s.threads[t'];
        }
      }
    }
  }

  lemma StartsInv(s: State)
    requires Inv(s)
    ensures Inv(s.(alive := s.alive + {s.born}, born := s.born + 1))
  {
    var s' := s.(alive := s.alive + {s.born}, born := s.born + 1);
    assert WindowOpen(s') <==> WindowOpen(s);
    forall p | p in s'.c.registered && p.0 !in s'.alive ensures Outstanding(s', p) {
      assert Outstanding(s, p);
      if p !in s.notices {
        var t' :| t' in s.threads && (s.threads[t'] == WantReset(Some(p)) || s.threads[t'] == Reset(Some(p)));
        assert s'.threads[t'] == s.threads[t'];
      }
    }
  }

  lemma NextInv(s: State, s': State)
    requires Inv(s) && Next(s, s')
    ensures Inv(s')
  {
    if t, choice :| Enabled(s, t, choice) && s' == Advance(s, t, choice) {
      AdvanceInv(s, t, choice);
    } else if Call(s, s') {
      var t: nat :| t !in s.threads
        && (s' == s.(threads := s.threads[t := WantGet]) || s' == s.(threads := s.threads[t := WantReset(None)]));
      NewThreadInv(s, t, s'.threads[t]);
    } else if r :| r in s.alive && s' == Dies(s, r) {
      DiesInv(s, r);
    } else if n, t: nat :| n in s.notices && t !in s.threads && s' == Delivers(s, n, t) {
      DeliversInv(s, n, t);
    } else {
      StartsInv(s);
    }
  }

  lemma {:induction false} RunInv(trace: seq<State>, i: nat)
    requires IsRun(trace) && i < |trace|
    ensures Inv(trace[i])
  {
    if i > 0 {
      RunInv(trace, i - 1);
      NextInv(trace[i - 1], trace[i - 1 + 1]);
    }
  }

  // ---------------------------------------------------------------------------
  // What holds over every interleaving
  // ---------------------------------------------------------------------------

  /** At no time are two death recipients registered, and the one that is belongs to the cached proxy. */
  lemma AtMostOneRecipient(trace: seq<State>, i: nat)
    requires IsRun(trace) && i < |trace|
    ensures var c := trace[i].c;
            |c.registered| <= 1
            && forall p | p in c.registered :: c.dProxy == Some(p.0) && c.recipient == Some(p.1)
  {
    RunInv(trace, i);
    var c := trace[i].c;
    if p :| p in c.registered {
      assert c.registered == {p} by {
        forall q | q in c.registered ensures q == p {
          assert Current(c, q) && Current(c, p);
        }
      }
    }
  }

  /** What a getter returns is what is cached at that moment: in particular nothing after a failure. */
  lemma GetterReturnsTheCached(trace: seq<State>, i: nat, t: nat, choice: Choice)
    requires IsRun(trace) && i < |trace| && Enabled(trace[i], t, choice)
    requires !trace[i].threads[t].WantReset? && !trace[i].threads[t].Reset?
    ensures var s' := Advance(trace[i], t, choice);
            s'.threads[t].Done? ==> s'.threads[t].proxy == s'.c.dProxy
  {
    RunInv(trace, i);
    GetterStep(trace[i].threads[t], trace[i].c, trace[i].alive, choice);
    hide After, LocksMatch, RegistrationFits, Outstanding;
  }

  /**
   With no getter between lookup and registration, the cached proxy of a live remote has
   exactly the current recipient registered on it, all earlier ones having been removed.
   */
  lemma CachedProxyIsWatched(trace: seq<State>, i: nat)
    requires IsRun(trace) && i < |trace| && !WindowOpen(trace[i])
    ensures var s := trace[i];
            s.c.dProxy.Some? && s.c.dProxy.value in s.alive ==>
              s.c.recipient.Some? && s.c.registered == {(s.c.dProxy.value, s.c.recipient.value)}
  {
    RunInv(trace, i);
    var s := trace[i];
    if s.c.dProxy.Some? && s.c.dProxy.value in s.alive {
      var own := (s.c.dProxy.value, s.c.recipient.value);
      forall p | p in s.c.registered ensures p == own {
        assert Current(s.c, p);
      }
    }
  }

  /** A death of the cached, registered remote is never forgotten: its notice is still on the way. */
  lemma DeathIsOutstanding(trace: seq<State>, i: nat, r: Remote, recipient: Recipient)
    requires IsRun(trace) && i < |trace|
    requires (r, recipient) in trace[i].c.registered && r !in trace[i].alive
    ensures Outstanding(trace[i], (r, recipient))
  {
    RunInv(trace, i);
  }

  /** Nothing is on the way: no notice undelivered, no delivered one short of its reset, no getter mid-way. */
  ghost predicate Quiet(s: State) {
    !WindowOpen(s) && forall n: Notice :: !Outstanding(s, n)
  }

  /** When nothing is on the way, the cached proxy is alive if and only if its recipient is registered. */
  lemma QuietProxyIsRegistered(trace: seq<State>, i: nat)
    requires IsRun(trace) && i < |trace| && Quiet(trace[i])
    ensures var s := trace[i];
            s.c.dProxy.Some? ==>
              s.c.recipient.Some?
              && (s.c.dProxy.value in s.alive <==> (s.c.dProxy.value, s.c.recipient.value) in s.c.registered)
  {
    RunInv(trace, i);
  }

  /** A step in which a getter adds its recipient to the cached proxy. */
  predicate Registers(s: State, s': State) {
    s.c.dProxy.Some? && exists t | t in s.threads && t in s'.threads :: s.threads[t].Register? && s'.threads[t].Done?
  }

  /** The guard of a registration: whether the remote is alive at that moment. */
  predicate FindsItAlive(s: State) {
    s.c.dProxy.Some? && s.c.dProxy.value in s.alive
  }

  /** Whether the last registration up to the i-th state found its remote alive. */
  predicate LastFoundAlive(trace: seq<State>, i: nat)
    requires i < |trace|
  {
    i > 0 && if Registers(trace[i - 1], trace[i]) then FindsItAlive(trace[i - 1]) else LastFoundAlive(trace, i - 1)
  }

  /** The answer of the last registration is what the registrations record. */
  ghost predicate Remembers(s: State, foundAlive: bool) {
    !WindowOpen(s) && s.c.dProxy.Some? ==>
      && s.c.recipient.Some?
      && (foundAlive <==> (s.c.dProxy.value, s.c.recipient.value) in s.c.registered)
  }

  lemma AdvanceRegisters(s: State, t: nat, choice: Choice)
    requires Enabled(s, t, choice)
    ensures Registers(s, Advance(s, t, choice)) <==> s.c.dProxy.Some? && s.threads[t].Register?
  {
    var s' := Advance(s, t, choice);
    if s.c.dProxy.Some? && s.threads[t].Register? {
      assert t in s.threads && t in s'.threads;
    }
  }

  lemma AdvanceRemembers(s: State, t: nat, choice: Choice, foundAlive: bool)
    requires Inv(s) && Enabled(s, t, choice) && Remembers(s, foundAlive)
    ensures var s' := Advance(s, t, choice);
            Remembers(s', if Registers(s, s') then FindsItAlive(s) else foundAlive)
  {
    AdvanceRegisters(s, t, choice);
    AdvanceWindow(s, t, choice);
    hide LocksMatch, WindowOpen, Outstanding, Registers;
  }

  /** A step that leaves the shared fields and every thread's position alone, but for new threads outside the window. */
  lemma BystanderRemembers(s: State, s': State, foundAlive: bool)
    requires Remembers(s, foundAlive) && s'.c == s.c && s.threads.Keys <= s'.threads.Keys
    requires forall t | t in s.threads :: s'.threads[t] == s.threads[t]
    ensures Remembers(s', foundAlive) && !Registers(s, s')
  {
    if t :| t in s.threads && InWindow(s.threads[t]) {
      assert t in s'.threads && InWindow(s'.threads[t]);
    }
  }

  lemma NextRemembers(s: State, s': State, foundAlive: bool)
    requires Inv(s) && Next(s, s') && Remembers(s, foundAlive)
    ensures Remembers(s', if Registers(s, s') then FindsItAlive(s) else foundAlive)
  {
    if t, choice :| Enabled(s, t, choice) && s' == Advance(s, t, choice) {
      AdvanceRemembers(s, t, choice, foundAlive);
    } else {
      hide Remembers, Registers, Inv, Call, Environment;
      OthersOnlyAddThreads(s, s');
      BystanderRemembers(s, s', foundAlive);
    }
  }

  lemma OthersOnlyAddThreads(s: State, s': State)
    requires Call(s, s') || Environment(s, s')
    ensures s'.c == s.c && s.threads.Keys <= s'.threads.Keys
    ensures forall t | t in s.threads :: s'.threads[t] == s.threads[t]
  {}

  lemma {:induction false} RunRemembers(trace: seq<State>, i: nat)
    requires IsRun(trace) && i < |trace|
    ensures Remembers(trace[i], LastFoundAlive(trace, i))
  {
    if i > 0 {
      RunRemembers(trace, i - 1);
      RunInv(trace, i - 1);
      NextRemembers(trace[i - 1], trace[i - 1 + 1], LastFoundAlive(trace, i - 1));
    }
  }

  /**
   No permanently stale proxy, exactly: when nothing is on the way, the cached proxy is
   alive if and only if the last registration of the run found its remote alive, even when
   a late notice for an old remote has cleared a newer one in between.
   */
  lemma NoPermanentlyStaleProxy(trace: seq<State>, i: nat)
    requires IsRun(trace) && i < |trace| && Quiet(trace[i])
    ensures var s := trace[i];
            s.c.dProxy.Some? ==> (s.c.dProxy.value in s.alive <==> LastFoundAlive(trace, i))
  {
    QuietProxyIsRegistered(trace, i);
    RunRemembers(trace, i);
  }

  /** Every registration up to the i-th state found its remote alive. */
  predicate Timely(trace: seq<State>, i: nat)
    requires i < |trace|
  {
    i > 0 ==> Timely(trace, i - 1) && (Registers(trace[i - 1], trace[i]) ==> FindsItAlive(trace[i - 1]))
  }

  lemma {:induction false} TimelyRunRemembers(trace: seq<State>, i: nat)
    requires IsRun(trace) && i < |trace| && Timely(trace, i)
    ensures Remembers(trace[i], true)
  {
    if i > 0 {
      TimelyRunRemembers(trace, i - 1);
      RunInv(trace, i - 1);
      NextRemembers(trace[i - 1], trace[i - 1 + 1], true);
    }
  }

  /** If every registration finds its remote alive, no quiet state of the run has a stale proxy. */
  lemma TimelyRegistrationsSuffice(trace: seq<State>, i: nat)
    requires IsRun(trace) && i < |trace| && Quiet(trace[i]) && Timely(trace, i)
    ensures var s := trace[i]; s.c.dProxy.Some? ==> s.c.dProxy.value in s.alive
  {
    QuietProxyIsRegistered(trace, i);
    TimelyRunRemembers(trace, i);
  }

  lemma Extend(trace: seq<State>, s: State)
    requires IsRun(trace) && Next(trace[|trace| - 1], s)
    ensures IsRun(trace + [s])
  {
    var longer := trace + [s];
    forall i | 0 <= i < |longer| - 1 ensures Next(longer[i], longer[i + 1]) {
      if i < |trace| - 1 {
        assert Next(trace[i], trace[i + 1]);
      }
    }
  }

  lemma ExtendByStep(trace: seq<State>, t: nat, choice: Choice) returns (longer: seq<State>)
    requires IsRun(trace) && Enabled(trace[|trace| - 1], t, choice)
    ensures longer != [] && IsRun(longer) && longer[|longer| - 1] == Advance(trace[|trace| - 1], t, choice)
  {
    longer := trace + [Advance(trace[|trace| - 1], t, choice)];
    Extend(trace, Advance(trace[|trace| - 1], t, choice));
  }

  /** One getter alone, at a position, with the given shared fields. */
  predicate Alone(s: State, pc: Pc, c: Shared) {
    && s.threads == map[0 := pc] && s.c == c && s.notices == {}
    && s.locks == map l | l in Holds(pc) :: 0
  }

  lemma AloneShared(s: State, pc: Pc, c: Shared)
    requires Alone(s, pc, c)
    ensures s.c == c
  {}

  lemma AloneCalls(s: State)
    requires s.threads == map[] && s.locks == map[] && s.notices == {}
    ensures Alone(s.(threads := s.threads[0 := WantGet]), WantGet, s.c)
  {}

  lemma AloneSteps(s: State, pc: Pc, choice: Choice)
    requires Alone(s, pc, s.c) && !pc.Done? && (choice.Give? ==> choice.remote < s.born)
    requires Holds(pc) !! Wants(pc)
    ensures Enabled(s, 0, choice)
    ensures var s' := Advance(s, 0, choice);
            var (pc', c') := After(pc, s.c, s.alive, choice);
            Alone(s', pc', c') && s'.alive == s.alive && s'.born == s.born
  {
    hide Holds, After;
  }

  /** A getter on its own, from its call until it has looked up the only remote there is. */
  lemma LonelyLookup() returns (trace: seq<State>)
    ensures trace != [] && IsRun(trace)
    ensures var s := trace[|trace| - 1];
            Alone(s, WantRegister, Shared(Some(0), None, false, {}, 0)) && s.alive == {0} && s.born == 1
  {
    hide IsRun, Next, Alone, Advance;
    var s0 := State(Shared(None, None, false, {}, 0), map[], map[], {}, 0, {});
    var s1 := s0.(alive := s0.alive + {s0.born}, born := s0.born + 1);
    var s2 := s1.(threads := s1.threads[0 := WantGet]);
    FirstState(s0);
    ServiceStarts(s0);
    Extend([s0], s1);
    GetterCalls(s1, 0);
    Extend([s0] + [s1], s2);
    trace := [s0] + [s1] + [s2];
    AloneCalls(s1);
    var pc := WantGet;
    while !pc.WantRegister?
      invariant pc in {WantGet, WantCheck, Check, Samgr, WantCheckSa, CheckSa, WantRegister}
      invariant trace != [] && IsRun(trace)
      invariant var s := trace[|trace| - 1];
                && Alone(s, pc, if pc.WantRegister? then AdoptStep(s0.c, 0) else s0.c)
                && s.alive == {0} && s.born == 1
      decreases StepsLeft(pc)
    {
      var s := trace[|trace| - 1];
      AloneShared(s, pc, s0.c);
      AloneSteps(s, pc, Give(0));
      trace := ExtendByStep(trace, 0, Give(0));
      pc := After(pc, s0.c, {0}, Give(0)).0;
    }
  }

  /**
   Without that condition a stale proxy does stay: the remote dies after it was looked up
   and before its recipient is added, and no notice will ever clear the cache.
   */
  lemma StaleProxyAfterLateRegistration() returns (trace: seq<State>)
    ensures trace != [] && IsRun(trace)
    ensures var s := trace[|trace| - 1];
            Quiet(s) && s.c.dProxy == Some(0) && 0 !in s.alive && s.threads == map[0 := Done(Some(0))]
  {
    hide IsRun, Next, Advance;
    trace := LonelyLookup();
    var looked := trace[|trace| - 1];
    var dead := Dies(looked, 0);
    RemoteDies(looked, 0);
    Extend(trace, dead);
    trace := trace + [dead];
    AloneSteps(dead, WantRegister, Go);
    trace := ExtendByStep(trace, 0, Go);
    AloneSteps(trace[|trace| - 1], Register, Go);
    trace := ExtendByStep(trace, 0, Go);
  }

  lemma FirstState(s: State)
    requires InitState(s)
    ensures IsRun([s])
  {}

  lemma ServiceStarts(s: State)
    ensures Next(s, s.(alive := s.alive + {s.born}, born := s.born + 1))
  {}

  lemma GetterCalls(s: State, t: nat)
    requires t !in s.threads
    ensures Next(s, s.(threads := s.threads[t := WantGet]))
  {}

  lemma RemoteDies(s: State, r: Remote)
    requires r in s.alive
    ensures Next(s, Dies(s, r))
  {}

  // ---------------------------------------------------------------------------
  // Progress
  // ---------------------------------------------------------------------------

  function Rank(l: Lock): nat {
    if l.GetProxy? then 0 else 1
  }

  /** Mutexes are taken in one order, none twice, and nobody waits while holding an inner one. */
  lemma LocksAreOrdered(pc: Pc)
    ensures forall held, wanted | held in Holds(pc) && wanted in Wants(pc) :: Rank(held) < Rank(wanted) && held != wanted
    ensures DProxy in Holds(pc) || IsInit in Holds(pc) ==> Wants(pc) == {}
  {}

  ghost predicate CanStep(s: State, t: nat) {
    exists choice :: Enabled(s, t, choice)
  }

  /** Deadlock freedom: while some thread is unfinished, some thread can step. */
  lemma NoDeadlock(trace: seq<State>, i: nat, t: nat)
    requires IsRun(trace) && i < |trace| && t in trace[i].threads && !trace[i].threads[t].Done?
    ensures exists t' :: CanStep(trace[i], t')
  {
    RunInv(trace, i);
    var _ := ChaseHolder(trace[i], t);
  }

  /** Following a blocked thread to the holder of what it waits for ends after at most two holders. */
  lemma ChaseHolder(s: State, t: nat) returns (runner: nat)
    requires LocksMatch(s) && t in s.threads && !s.threads[t].Done?
    ensures CanStep(s, runner)
    decreases if Holds(s.threads[t]) == {} then 2 else if Wants(s.threads[t]) != {} then 1 else 0
  {
    LocksAreOrdered(s.threads[t]);
    if Wants(s.threads[t]) !! s.locks.Keys {
      assert Enabled(s, t, Go);
      return t;
    }
    var l :| l in Wants(s.threads[t]) && l in s.locks;
    LocksAreOrdered(s.threads[s.locks[l]]);
    runner := ChaseHolder(s, s.locks[l]);
  }

  function StepsLeft(pc: Pc): nat {
    match pc
    case WantGet => 13
    case WantCheck => 12
    case Check => 11
    case Samgr => 10
    case WantCheckSa => 9
    case CheckSa => 8
    case WantInit => 7
    case Init => 6
    case Devices => 5
    case WantLoad => 4
    case Load => 3
    case WantRegister => 2
    case Register => 1
    case WantReset(_) => 2
    case Reset(_) => 1
    case Done(_) => 0
  }

  /** ... and it makes progress: each step brings its own thread nearer to its end and no thread further from it. */
  lemma EveryStepIsProgress(s: State, t: nat, choice: Choice)
    requires Enabled(s, t, choice)
    ensures var s' := Advance(s, t, choice);
            && s'.threads.Keys == s.threads.Keys
            && StepsLeft(s'.threads[t]) < StepsLeft(s.threads[t])
            && forall t' | t' in s.threads && t' != t :: s'.threads[t'] == s.threads[t']
  {}
}
