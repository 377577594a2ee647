/**
 * The life of plugin modules and command banks: the shared reference count of the modules, the callbacks
 * that create and destroy each bank's plugin instances, and the modems that own the banks.
 */
module Plugins {
  const UINT_MAX: nat := 0xFFFF_FFFF

  datatype Module = Module(hasUnregister: bool)

  /** One call into a module, for a bank, with the instance the bank got from it, while loaded or not. */
  datatype Callback =
    | Registered(bank: nat, index: nat, opaqueData: nat, loaded: bool)
    | Unregistered(bank: nat, index: nat, opaqueData: nat, loaded: bool)

  /** The static module table. */
  datatype Host = Host(refs: nat, loaded: bool, modules: seq<Module>, calls: seq<Callback>)

  /** A command bank: its plugin instances, and (history) the modules they came from. */
  datatype Bank = Bank(id: nat, instances: seq<nat>, modules: seq<Module>)

  // ------------------------------------------------------------------ the module table

  function LoadPlugins(h: Host, found: seq<Module>): (Host, bool) {
    if h.refs >= UINT_MAX then (h, false)
    else
      var h' := if h.refs == 0 then h.(loaded := true, modules := found) else h;
      (h'.(refs := h.refs + 1), true)
  }

  function UnloadPlugins(h: Host): Host
    requires h.refs != 0
  {
    h.(refs := h.refs - 1, loaded := h.loaded && h.refs != 1)
  }

  /** The calls that create a bank's instances of the first n modules. */
  function Registrations(b: Bank, n: nat, loaded: bool): seq<Callback>
    requires n <= |b.instances|
  {
    if n == 0 then [] else Registrations(b, n - 1, loaded) + [Registered(b.id, n - 1, b.instances[n - 1], loaded)]
  }

  /** The calls that destroy them: one for each module that has the callback. */
  function Unregistrations(b: Bank, modules: seq<Module>, n: nat, loaded: bool): seq<Callback>
    requires n <= |b.instances| && n <= |modules|
  {
    if n == 0 then []
    else
      Unregistrations(b, modules, n - 1, loaded)
      + if modules[n - 1].hasUnregister then [Unregistered(b.id, n - 1, b.instances[n - 1], loaded)] else []
  }

  /** The i-th call is made to the i-th module, which answers with the bank's i-th instance. */
  lemma {:induction false} RegistrationsAre(b: Bank, n: nat, loaded: bool)
    requires n <= |b.instances|
    ensures |Registrations(b, n, loaded)| == n
    ensures forall i :: 0 <= i < n ==>
              Registrations(b, n, loaded)[i] == Registered(b.id, i, b.instances[i], loaded)
    decreases n
  {
    if n == 0 {
    } else {
      RegistrationsAre(b, n - 1, loaded);
    }
  }

  predicate Ascending(calls: seq<Callback>) {
    forall i, j :: 0 <= i < j < |calls| ==> calls[i].index < calls[j].index
  }

  /** Each module that has the callback, and no other, is called once, with the instance that it made, in order. */
  lemma {:induction false} UnregistrationsAre(b: Bank, modules: seq<Module>, n: nat, loaded: bool)
    requires n <= |b.instances| && n <= |modules|
    ensures forall c :: c in Unregistrations(b, modules, n, loaded) <==>
              c.Unregistered? && c.index < n && modules[c.index].hasUnregister
              && c == Unregistered(b.id, c.index, b.instances[c.index], loaded)
    ensures Ascending(Unregistrations(b, modules, n, loaded))
    decreases n
  {
    if n == 0 {
    } else {
      UnregistrationsAre(b, modules, n - 1, loaded);
      var before := Unregistrations(b, modules, n - 1, loaded);
      var more := if modules[n - 1].hasUnregister then [Unregistered(b.id, n - 1, b.instances[n - 1], loaded)] else [];
      assert Unregistrations(b, modules, n, loaded) == before + more;
      forall i | 0 <= i < |before| ensures before[i].index < n - 1 {
        assert before[i] in before;
      }
      Ascend(before, more, n - 1);
    }
  }

  lemma Ascend(a: seq<Callback>, b: seq<Callback>, n: nat)
    requires |b| <= 1 && Ascending(a)
    requires (forall i :: 0 <= i < |a| ==> a[i].index < n) && (forall i :: 0 <= i < |b| ==> b[i].index == n)
    ensures Ascending(a + b)
  {
  }

  /** The first one to load finds the modules; the last one to unload drops them; in between they stay. */
  lemma LoadingCounts(h: Host, found: seq<Module>)
    ensures h.refs < 0xFFFF_FFFF ==>
              LoadPlugins(h, found) ==
              (Host(h.refs + 1, h.refs == 0 || h.loaded, if h.refs == 0 then found else h.modules, h.calls), true)
    ensures h.refs >= 0xFFFF_FFFF ==> LoadPlugins(h, found) == (h, false)
    ensures h.refs > 0 ==>
              UnloadPlugins(h) == Host(h.refs - 1, if h.refs == 1 then false else h.loaded, h.modules, h.calls)
  {
  }

  /** The module table as the program keeps it. */
  class ModuleTable {
    var refs: nat
    var modules: seq<Module>
    ghost var loaded: bool
    ghost var calls: seq<Callback>

    ghost function View(): Host
      reads this
    {
      Host(refs, loaded, modules, calls)
    }

    constructor ()
      ensures View() == Host(0, false, [], [])
    {
      refs, modules, loaded, calls := 0, [], false, [];
    }

    /** at_load_plugins; found is what the plugins directory holds. */
    method Load(found: seq<Module>) returns (ok: bool)
      modifies this
      ensures (View(), ok) == LoadPlugins(old(View()), found)
    {
      ok := false;
      if refs < UINT_MAX {
        if refs == 0 {
          modules, loaded := found, true;
        }
        refs := refs + 1;
        ok := true;
      }
    }

    /** at_unload_plugins */
    method Unload()
      requires refs != 0
      modifies this
      ensures View() == UnloadPlugins(old(View()))
    {
      refs := refs - 1;
      if refs == 0 {
        loaded := false;
      }
    }

    /** at_instantiate_plugins; answers is what the registration callbacks return. */
    method Instantiate(id: nat, answers: seq<nat>) returns (tab: seq<nat>)
      requires |answers| == |modules|
      modifies this`calls
      ensures tab == answers
      ensures View() == old(View()).(calls := old(calls) + Registrations(Bank(id, tab, modules), |tab|, loaded))
    {
      ghost var bank := Bank(id, answers, modules);
      tab := [];
      for i := 0 to |modules|
        invariant tab == answers[..i] && calls == old(calls) + Registrations(bank, i, loaded)
      {
        tab := tab + [answers[i]];
        calls := calls + [Registered(id, i, answers[i], loaded)];
      }
    }

    /** at_deinstantiate_plugins */
    method Deinstantiate(ghost id: nat, instances: seq<nat>)
      requires |instances| == |modules|
      modifies this`calls
      ensures var b := Bank(id, instances, modules);
              View() == old(View()).(calls := old(calls) + Unregistrations(b, modules, |modules|, loaded))
    {
      ghost var bank := Bank(id, instances, modules);
      for i := 0 to |modules|
        invariant calls == old(calls) + Unregistrations(bank, modules, i, loaded)
      {
        if modules[i].hasUnregister {
          calls := calls + [Unregistered(id, i, instances[i], loaded)];
        }
      }
    }
  }

  // ------------------------------------------------------------------ modems and banks

  /**
   * A modem's bank: none; being filled by the registration callbacks; in use; or being emptied by the
   * unregistration callbacks, of which those of the first n modules have been called.
   */
  datatype Hold = NoBank | Filling(bank: Bank) | Living(bank: Bank) | Draining(bank: Bank, n: nat)

  /** Where a modem's reader thread is. */
  datatype Pc = Looping | InLine | Reinitialising | Stopping

  datatype Modem = Modem(pc: Pc, reset: bool, hold: Hold)

  /** All modems, and (history) the banks that are gone. */
  datatype World = World(host: Host, preloads: nat, modems: map<nat, Modem>, nextId: nat, gone: seq<Bank>)

  /**
   * What happens, one callback or one locked section at a time: the threads of different modems run the
   * callbacks of their banks without a lock.
   */
  datatype Event =
    | Preload(found: seq<Module>)
    | Unpreload
    | Start(m: nat)
    | BeginReset(m: nat)
    | UnregisterNext(m: nat)
    | Release(m: nat)
    | Acquire(m: nat, found: seq<Module>)
    | RegisterNext(m: nat, answer: nat)
    | Ready(m: nat)
    | BeginLine(m: nat)
    | RequestReset(m: nat)
    | EndLine(m: nat)
    | Stop(m: nat)
    | Leave(m: nat)

  const START := World(Host(0, false, [], []), 0, map[], 0, [])

  /** The calls made for one bank, in order. */
  function CallsOf(calls: seq<Callback>, id: nat): seq<Callback> {
    if calls == [] then []
    else CallsOf(calls[..|calls| - 1], id) + if calls[|calls| - 1].bank == id then [calls[|calls| - 1]] else []
  }

  /** The modems that hold a reference on the modules. */
  function Holders(modems: map<nat, Modem>): set<nat> {
    set m | m in modems && modems[m].hold != NoBank
  }

  /** The modules are loaded exactly while they are counted: once per preload and once per bank. */
  predicate Counted(w: World) {
    (w.host.loaded <==> w.host.refs > 0) && w.host.refs == w.preloads + |Holders(w.modems)|
  }

  /** A bank has been registered with, and unregistered from, so many of the loaded modules, in order. */
  predicate HoldSound(w: World, hold: Hold) {
    hold != NoBank ==>
      var b := hold.bank;
      && b.modules == w.host.modules && |b.instances| <= |b.modules| && b.id < w.nextId
      && (!hold.Filling? ==> |b.instances| == |b.modules|)
      && (hold.Draining? ==> hold.n <= |b.modules|)
      && CallsOf(w.host.calls, b.id) ==
           Registrations(b, |b.instances|, true)
           + if hold.Draining? then Unregistrations(b, b.modules, hold.n, true) else []
  }

  /** A bank that is gone was registered once and unregistered once, with its own instances, while loaded. */
  predicate IsGone(w: World, b: Bank) {
    && |b.instances| == |b.modules| && b.id < w.nextId
    && CallsOf(w.host.calls, b.id) ==
         Registrations(b, |b.instances|, true) + Unregistrations(b, b.modules, |b.modules|, true)
  }

  predicate HoldsSound(w: World) {
    forall m :: m in w.modems ==> HoldSound(w, w.modems[m].hold)
  }

  predicate GoneSound(w: World) {
    forall i :: 0 <= i < |w.gone| ==> IsGone(w, w.gone[i])
  }

  /** Every call was made for some bank, while the modules were loaded. */
  predicate CallsSound(w: World) {
    forall i :: 0 <= i < |w.host.calls| ==> w.host.calls[i].bank < w.nextId && w.host.calls[i].loaded
  }

  predicate IsHolder(w: World, m: nat, id: nat) {
    m in w.modems && w.modems[m].hold != NoBank && w.modems[m].hold.bank.id == id
  }

  ghost predicate Known(w: World, id: nat) {
    (exists m :: IsHolder(w, m, id)) || exists i :: 0 <= i < |w.gone| && w.gone[i].id == id
  }

  /** No two banks share a number, and every number was given to a bank that some modem holds or that is gone. */
  ghost predicate Numbered(w: World) {
    && (forall m, n, id :: IsHolder(w, m, id) && IsHolder(w, n, id) ==> m == n)
    && (forall m, i :: 0 <= i < |w.gone| ==> !IsHolder(w, m, w.gone[i].id))
    && (forall i, j :: 0 <= i < j < |w.gone| ==> w.gone[i].id != w.gone[j].id)
    && (forall id: nat :: id < w.nextId ==> Known(w, id))
  }

  /** Command lines are executed on a bank in use; there is none only before the first, or while it is replaced. */
  predicate PcSound(modem: Modem) {
    match modem.pc
    case Looping => modem.hold.Living? || (modem.hold.NoBank? && modem.reset)
    case InLine => modem.hold.Living?
    case Reinitialising => !modem.hold.Living?
    case Stopping => modem.hold.NoBank? || modem.hold.Draining?
  }

  predicate PcsSound(modems: map<nat, Modem>) {
    forall m :: m in modems ==> PcSound(modems[m])
  }

  ghost predicate Inv(w: World) {
    Counted(w) && HoldsSound(w) && GoneSound(w) && CallsSound(w) && Numbered(w) && PcsSound(w.modems)
  }

  // ------------------------------------------------------------------ steps

  /** The reference counter is assumed not to overflow; every preload is undone at most once. */
  predicate Enabled(w: World, e: Event) {
    match e
    case Preload(_) => w.host.refs < UINT_MAX
    case Unpreload => w.preloads > 0 && w.host.refs > 0
    case Start(m) => m !in w.modems
    case BeginReset(m) => m in w.modems && w.modems[m].pc == Looping && w.modems[m].reset
    case UnregisterNext(m) =>
      && m in w.modems && w.modems[m].hold.Draining? && w.modems[m].hold.n < |w.host.modules|
      && w.modems[m].hold.n < |w.modems[m].hold.bank.instances|
    case Release(m) =>
      m in w.modems && w.modems[m].hold.Draining? && w.modems[m].hold.n == |w.host.modules| && w.host.refs > 0
    case Acquire(m, _) =>
      m in w.modems && w.modems[m].pc == Reinitialising && w.modems[m].hold.NoBank? && w.host.refs < UINT_MAX
    case RegisterNext(m, _) =>
      m in w.modems && w.modems[m].hold.Filling? && |w.modems[m].hold.bank.instances| < |w.host.modules|
    case Ready(m) =>
      m in w.modems && w.modems[m].hold.Filling? && |w.modems[m].hold.bank.instances| == |w.host.modules|
    case BeginLine(m) => m in w.modems && w.modems[m].pc == Looping && !w.modems[m].reset
    case RequestReset(m) => m in w.modems && w.modems[m].pc == InLine
    case EndLine(m) => m in w.modems && w.modems[m].pc == InLine
    case Stop(m) => m in w.modems && w.modems[m].pc in {Looping, InLine}
    case Leave(m) => m in w.modems && w.modems[m].pc == Stopping && w.modems[m].hold.NoBank?
  }

  function Put(w: World, m: nat, modem: Modem): World {
    w.(modems := w.modems[m := modem])
  }

  function AddCalls(w: World, more: seq<Callback>): World {
    w.(host := w.host.(calls := w.host.calls + more))
  }

  /** at_commands_deinit begins, if there is a bank. */
  function Emptied(hold: Hold): Hold {
    if hold.Living? then Draining(hold.bank, 0) else hold
  }

  /** The call that UnregisterNext makes. */
  function NextUnregistration(w: World, b: Bank, n: nat): seq<Callback>
    requires n < |w.host.modules| && n < |b.instances|
  {
    if w.host.modules[n].hasUnregister then [Unregistered(b.id, n, b.instances[n], w.host.loaded)] else []
  }

  function Next(w: World, e: Event): World
    requires Enabled(w, e)
  {
    match e
    case Preload(found) => w.(host := LoadPlugins(w.host, found).0, preloads := w.preloads + 1)
    case Unpreload => w.(host := UnloadPlugins(w.host), preloads := w.preloads - 1)
    case Start(m) => Put(w, m, Modem(Looping, true, NoBank))
    case BeginReset(m) =>
      Put(w, m, w.modems[m].(pc := Reinitialising, hold := Emptied(w.modems[m].hold)))
    case UnregisterNext(m) =>
      var b, n := w.modems[m].hold.bank, w.modems[m].hold.n;
      AddCalls(Put(w, m, w.modems[m].(hold := Draining(b, n + 1))), NextUnregistration(w, b, n))
    case Release(m) =>
      Put(w, m, w.modems[m].(hold := NoBank))
        .(host := UnloadPlugins(w.host), gone := w.gone + [w.modems[m].hold.bank])
    case Acquire(m, found) =>
      var h := LoadPlugins(w.host, found).0;
      Put(w, m, w.modems[m].(hold := Filling(Bank(w.nextId, [], h.modules)))).(host := h, nextId := w.nextId + 1)
    case RegisterNext(m, answer) =>
      var b := w.modems[m].hold.bank;
      var b' := b.(instances := b.instances + [answer]);
      AddCalls(Put(w, m, w.modems[m].(hold := Filling(b'))),
               [Registered(b.id, |b.instances|, answer, w.host.loaded)])
    case Ready(m) => Put(w, m, Modem(Looping, false, Living(w.modems[m].hold.bank)))
    case BeginLine(m) => Put(w, m, w.modems[m].(pc := InLine))
    case RequestReset(m) => Put(w, m, w.modems[m].(reset := true))
    case EndLine(m) => Put(w, m, w.modems[m].(pc := Looping))
    case Stop(m) => Put(w, m, w.modems[m].(pc := Stopping, hold := Emptied(w.modems[m].hold)))
    case Leave(m) => w.(modems := w.modems - {m})
  }

  /** A registration callback's answer becomes the bank's next instance; what is found is what is loaded. */
  lemma AnswersAreKept(w: World, m: nat, answer: nat, found: seq<Module>)
    ensures Enabled(w, RegisterNext(m, answer)) ==>
              && var b, w' := w.modems[m].hold.bank, Next(w, RegisterNext(m, answer));
              && w'.modems[m].hold == Filling(b.(instances := b.instances + [answer]))
              && w'.host.calls == w.host.calls + [Registered(b.id, |b.instances|, answer, w.host.loaded)]
    ensures Enabled(w, Acquire(m, found)) && w.host.refs == 0 ==>
              && Next(w, Acquire(m, found)).host.modules == found
              && Next(w, Acquire(m, found)).modems[m].hold == Filling(Bank(w.nextId, [], found))
    ensures Enabled(w, Ready(m)) ==>
              Next(w, Ready(m)).modems[m] == Modem(Looping, false, Living(w.modems[m].hold.bank))
  {
  }

  // ------------------------------------------------------------------ counting

  /** The modem that an event moves, if it is one modem's, as it is afterwards. */
  predicate Moves(e: Event) {
    !e.Preload? && !e.Unpreload?
  }

  lemma HoldersAfterPut(modems: map<nat, Modem>, m: nat, modem: Modem)
    ensures Holders(modems[m := modem]) ==
            if modem.hold.NoBank? then Holders(modems) - {m} else Holders(modems) + {m}
  {
  }

  lemma HoldersAfterLeaving(modems: map<nat, Modem>, m: nat)
    ensures Holders(modems - {m}) == Holders(modems) - {m}
  {
  }

  lemma HolderIsCounted(w: World, m: nat)
    requires Counted(w) && m in w.modems && w.modems[m].hold != NoBank
    ensures w.host.refs > 0 && w.host.loaded && m in Holders(w.modems)
  {
    assert m in Holders(w.modems);
    assert Holders(w.modems) != {};
  }

  /** The threads that hold the modules after an event. */
  lemma HoldersAfter(w: World, e: Event)
    requires Enabled(w, e) && PcsSound(w.modems)
    ensures Holders(Next(w, e).modems) ==
            if e.Acquire? then Holders(w.modems) + {e.m}
            else if e.Release? then Holders(w.modems) - {e.m}
            else Holders(w.modems)
    ensures e.Acquire? ==> e.m !in Holders(w.modems)
    ensures e.Release? ==> e.m in Holders(w.modems)
  {
    if e.Leave? {
      HoldersAfterLeaving(w.modems, e.m);
    } else if Moves(e) {
      HoldersAfterPut(w.modems, e.m, Next(w, e).modems[e.m]);
    }
  }

  lemma NextIsCounted(w: World, e: Event)
    requires Counted(w) && Enabled(w, e) && PcsSound(w.modems)
    ensures Counted(Next(w, e))
  {
    HoldersAfter(w, e);
    hide PcsSound, Holders;
  }

  // ------------------------------------------------------------------ histories

  lemma CallsSnoc(calls: seq<Callback>, c: Callback, id: nat)
    ensures CallsOf(calls + [c], id) == CallsOf(calls, id) + if c.bank == id then [c] else []
  {
    assert (calls + [c])[..|calls|] == calls;
  }

  lemma {:induction false} NoCallsYet(calls: seq<Callback>, id: nat)
    requires forall i :: 0 <= i < |calls| ==> calls[i].bank < id
    ensures CallsOf(calls, id) == []
    decreases |calls|
  {
    if calls == [] {
    } else {
      NoCallsYet(calls[..|calls| - 1], id);
    }
  }

  /** The calls for the instances a bank has do not depend on those it gets later. */
  lemma {:induction false} RegistrationsStay(b: Bank, answer: nat, n: nat, loaded: bool)
    requires n <= |b.instances|
    ensures Registrations(b.(instances := b.instances + [answer]), n, loaded) == Registrations(b, n, loaded)
    decreases n
  {
    if n == 0 {
    } else {
      RegistrationsStay(b, answer, n - 1, loaded);
    }
  }

  /** The call that an event makes, if any. */
  function MadeBy(w: World, e: Event): seq<Callback>
    requires Enabled(w, e)
  {
    match e
    case UnregisterNext(m) => NextUnregistration(w, w.modems[m].hold.bank, w.modems[m].hold.n)
    case RegisterNext(m, answer) =>
      var b := w.modems[m].hold.bank;
      [Registered(b.id, |b.instances|, answer, w.host.loaded)]
    case _ => []
  }

  lemma NextCalls(w: World, e: Event)
    requires Enabled(w, e)
    ensures Next(w, e).host.calls == w.host.calls + MadeBy(w, e) && |MadeBy(w, e)| <= 1
    ensures MadeBy(w, e) != [] ==>
              && Moves(e) && e.m in w.modems && w.modems[e.m].hold != NoBank
              && MadeBy(w, e)[0].bank == w.modems[e.m].hold.bank.id && MadeBy(w, e)[0].loaded == w.host.loaded
    ensures Next(w, e).nextId >= w.nextId
    ensures w.host.refs > 0 ==> Next(w, e).host.modules == w.host.modules
  {
  }

  lemma CallsOfOthers(w: World, e: Event, id: nat)
    requires Enabled(w, e) && (MadeBy(w, e) != [] ==> MadeBy(w, e)[0].bank != id)
    ensures CallsOf(Next(w, e).host.calls, id) == CallsOf(w.host.calls, id)
  {
    NextCalls(w, e);
    hide Next, Enabled, MadeBy, CallsOf;
    if MadeBy(w, e) == [] {
      assert Next(w, e).host.calls == w.host.calls;
    } else {
      assert MadeBy(w, e) == [MadeBy(w, e)[0]];
      CallsSnoc(w.host.calls, MadeBy(w, e)[0], id);
    }
  }

  /** Modems that an event does not move keep their banks. */
  lemma OthersKeepHolds(w: World, e: Event, n: nat)
    requires Inv(w) && Enabled(w, e) && n in w.modems && (Moves(e) ==> e.m != n)
    ensures HoldSound(Next(w, e), w.modems[n].hold)
  {
    NextCalls(w, e);
    if w.modems[n].hold != NoBank {
      HolderIsCounted(w, n);
      var id := w.modems[n].hold.bank.id;
      assert HoldSound(w, w.modems[n].hold) && IsHolder(w, n, id);
      if MadeBy(w, e) != [] {
        assert IsHolder(w, e.m, MadeBy(w, e)[0].bank);
      }
      hide Next, Enabled, MadeBy, CallsOf, Registrations, Unregistrations, Counted, Numbered, PcsSound;
      CallsOfOthers(w, e, id);
    }
  }

  lemma GoneBanksStay(w: World, e: Event, i: nat)
    requires Inv(w) && Enabled(w, e) && i < |w.gone|
    ensures IsGone(Next(w, e), w.gone[i])
  {
    NextCalls(w, e);
    if MadeBy(w, e) != [] {
      assert IsHolder(w, e.m, MadeBy(w, e)[0].bank);
    }
    assert IsGone(w, w.gone[i]);
    hide Next, Enabled, MadeBy, CallsOf, Registrations, Unregistrations, Counted, Numbered, PcsSound;
    CallsOfOthers(w, e, w.gone[i].id);
  }

  /** One more registration. */
  lemma RegisteredNext(w: World, m: nat, answer: nat)
    requires Inv(w) && Enabled(w, RegisterNext(m, answer))
    ensures HoldSound(Next(w, RegisterNext(m, answer)), Next(w, RegisterNext(m, answer)).modems[m].hold)
  {
    var b := w.modems[m].hold.bank;
    var b' := b.(instances := b.instances + [answer]);
    HolderIsCounted(w, m);
    assert HoldSound(w, w.modems[m].hold);
    RegistrationsStay(b, answer, |b.instances|, true);
    assert Registrations(b', |b'.instances|, true) ==
           Registrations(b, |b.instances|, true) + [Registered(b.id, |b.instances|, answer, true)];
    CallsSnoc(w.host.calls, Registered(b.id, |b.instances|, answer, true), b.id);
    hide Registrations, Unregistrations, CallsOf, Counted, Numbered, PcsSound, HoldsSound, GoneSound;
  }

  /** One more unregistration, or none when the module has no such callback. */
  lemma UnregisteredNext(w: World, m: nat)
    requires Inv(w) && Enabled(w, UnregisterNext(m))
    ensures HoldSound(Next(w, UnregisterNext(m)), Next(w, UnregisterNext(m)).modems[m].hold)
  {
    hide Registrations, Unregistrations, CallsOf, Counted, Numbered, PcsSound, HoldsSound, GoneSound;
    var b, n := w.modems[m].hold.bank, w.modems[m].hold.n;
    HolderIsCounted(w, m);
    HeldIsSound(w, m);
    var done, more := Unregistrations(b, b.modules, n, true), NextUnregistration(w, b, n);
    UnregistrationsSnoc(b, b.modules, n);
    var before := Registrations(b, |b.instances|, true);
    assert (before + done) + more == before + (done + more);
    if more != [] {
      CallsSnoc(w.host.calls, more[0], b.id);
    } else {
      assert w.host.calls + more == w.host.calls;
    }
  }

  lemma HeldIsSound(w: World, m: nat)
    requires HoldsSound(w) && m in w.modems
    ensures HoldSound(w, w.modems[m].hold)
  {
  }

  lemma UnregistrationsSnoc(b: Bank, modules: seq<Module>, n: nat)
    requires n < |modules| && n < |b.instances|
    ensures Unregistrations(b, modules, n + 1, true) ==
            Unregistrations(b, modules, n, true)
            + if modules[n].hasUnregister then [Unregistered(b.id, n, b.instances[n], true)] else []
  {
  }

  /** The modem that an event moves. */
  lemma MovedKeepsHold(w: World, e: Event)
    requires Inv(w) && Enabled(w, e) && Moves(e) && !e.Leave?
    ensures HoldSound(Next(w, e), Next(w, e).modems[e.m].hold)
  {
    if e.RegisterNext? {
      RegisteredNext(w, e.m, e.answer);
    } else if e.UnregisterNext? {
      UnregisteredNext(w, e.m);
    } else if e.Acquire? {
      NoCallsYet(w.host.calls, w.nextId);
      assert Registrations(Next(w, e).modems[e.m].hold.bank, 0, true) == [];
    } else if !e.Start? && !e.Release? {
      KeptHoldIsSound(w, e);
    }
  }

  /** Events that make no call and take or release no module leave the bank as it is. */
  lemma KeptHoldIsSound(w: World, e: Event)
    requires Inv(w) && Enabled(w, e) && Moves(e) && e.m in w.modems && !e.Leave? && !e.Release? && !e.Acquire?
    requires !e.RegisterNext? && !e.UnregisterNext?
    ensures HoldSound(Next(w, e), Next(w, e).modems[e.m].hold)
  {
    assert HoldSound(w, w.modems[e.m].hold);
    if w.modems[e.m].hold != NoBank {
      var b := w.modems[e.m].hold.bank;
      assert |b.instances| <= |b.modules| && Unregistrations(b, b.modules, 0, true) == [];
    }
    hide Registrations, Unregistrations, CallsOf, Counted, Numbered, HoldsSound, GoneSound, CallsSound;
  }

  lemma NextKeepsHolds(w: World, e: Event)
    requires Inv(w) && Enabled(w, e)
    ensures HoldsSound(Next(w, e))
  {
    var w' := Next(w, e);
    if Moves(e) && !e.Leave? {
      MovedKeepsHold(w, e);
    }
    hide Inv, HoldSound;
    forall n | n in w'.modems ensures HoldSound(w', w'.modems[n].hold) {
      if Moves(e) ==> e.m != n {
        OthersKeepHolds(w, e, n);
      }
    }
  }

  lemma NextKeepsGone(w: World, e: Event)
    requires Inv(w) && Enabled(w, e)
    ensures GoneSound(Next(w, e))
  {
    var w' := Next(w, e);
    forall i | 0 <= i < |w'.gone| ensures IsGone(w', w'.gone[i]) {
      if i < |w.gone| {
        GoneBanksStay(w, e, i);
        assert w'.gone[i] == w.gone[i];
      } else {
        assert e.Release? && HoldSound(w, w.modems[e.m].hold);
        hide Registrations, Unregistrations, CallsOf, Counted, Numbered, HoldsSound, GoneSound, CallsSound, PcsSound;
      }
    }
  }

  lemma NextKeepsCalls(w: World, e: Event)
    requires Inv(w) && Enabled(w, e)
    ensures CallsSound(Next(w, e))
  {
    NextCalls(w, e);
    if MadeBy(w, e) != [] {
      HolderIsCounted(w, e.m);
      assert HoldSound(w, w.modems[e.m].hold);
    }
    hide Next, Enabled, MadeBy, Counted, Numbered, HoldsSound, GoneSound, PcsSound;
  }

  // ------------------------------------------------------------------ numbers

  /** Who holds which bank after an event. */
  lemma HoldersKeepNumbers(w: World, e: Event, m: nat, id: nat)
    requires Enabled(w, e) && PcsSound(w.modems)
    ensures IsHolder(Next(w, e), m, id) <==>
            if e.Acquire? && e.m == m then id == w.nextId
            else if e.Release? && e.m == m then false
            else IsHolder(w, m, id)
  {
  }

  /** The banks that are gone after an event. */
  lemma GoneAfter(w: World, e: Event)
    requires Enabled(w, e)
    ensures Next(w, e).gone == w.gone + if e.Release? then [w.modems[e.m].hold.bank] else []
    ensures e.Release? ==> IsHolder(w, e.m, w.modems[e.m].hold.bank.id)
    ensures Next(w, e).nextId == w.nextId + if e.Acquire? then 1 else 0
  {
  }

  /** Numbers that are in use have been given. */
  lemma NumbersAreOld(w: World)
    requires HoldsSound(w) && GoneSound(w)
    ensures forall m: nat, id: nat :: IsHolder(w, m, id) ==> id < w.nextId
    ensures forall i :: 0 <= i < |w.gone| ==> w.gone[i].id < w.nextId
  {
    forall m: nat, id: nat | IsHolder(w, m, id) ensures id < w.nextId {
      assert HoldSound(w, w.modems[m].hold);
    }
  }

  lemma KnownStays(w: World, e: Event, id: nat)
    requires Inv(w) && Enabled(w, e) && id < Next(w, e).nextId
    ensures Known(Next(w, e), id)
  {
    var w' := Next(w, e);
    GoneAfter(w, e);
    if id == w.nextId {
      HoldersKeepNumbers(w, e, e.m, id);
    } else {
      assert Known(w, id);
      hide Next, Enabled, IsHolder, Numbered, Counted, HoldsSound, GoneSound, CallsSound;
      if m :| IsHolder(w, m, id) {
        HoldersKeepNumbers(w, e, m, id);
        if e.Release? && e.m == m {
          assert w'.gone[|w.gone|].id == id by { HolderHasNumber(w, m, id); }
        }
      } else {
        var i :| 0 <= i < |w.gone| && w.gone[i].id == id;
        assert w'.gone[i].id == id;
      }
    }
  }

  lemma HolderHasNumber(w: World, m: nat, id: nat)
    requires IsHolder(w, m, id)
    ensures m in w.modems && w.modems[m].hold != NoBank && w.modems[m].hold.bank.id == id
  {
  }

  lemma NextKeepsNumbers(w: World, e: Event)
    requires Inv(w) && Enabled(w, e)
    ensures Numbered(Next(w, e))
  {
    var w' := Next(w, e);
    forall m, id ensures IsHolder(w', m, id) <==>
        if e.Acquire? && e.m == m then id == w.nextId
        else if e.Release? && e.m == m then false
        else IsHolder(w, m, id)
    {
      HoldersKeepNumbers(w, e, m, id);
    }
    NumbersAreOld(w);
    GoneAfter(w, e);
    hide Next, Enabled, IsHolder, Known, Counted, HoldsSound, GoneSound, CallsSound, PcsSound;
    forall id: nat | id < w'.nextId ensures Known(w', id) {
      KnownStays(w, e, id);
    }
  }

  lemma NextKeepsPcs(w: World, e: Event)
    requires PcsSound(w.modems) && Enabled(w, e)
    ensures PcsSound(Next(w, e).modems)
  {
  }

  /** Every event keeps all of it. */
  lemma NextHolds(w: World, e: Event)
    requires Inv(w) && Enabled(w, e)
    ensures Inv(Next(w, e))
  {
    NextIsCounted(w, e);
    NextKeepsHolds(w, e);
    NextKeepsGone(w, e);
    NextKeepsCalls(w, e);
    NextKeepsNumbers(w, e);
    NextKeepsPcs(w, e);
    hide Next, Enabled, Counted, HoldsSound, GoneSound, CallsSound, Numbered, PcsSound;
  }

  // ------------------------------------------------------------------ results over every run

  predicate Possible(w: World, events: seq<Event>)
    decreases |events|
  {
    events == [] || (Enabled(w, events[0]) && Possible(Next(w, events[0]), events[1..]))
  }

  function RunAll(w: World, events: seq<Event>): World
    requires Possible(w, events)
    decreases |events|
  {
    if events == [] then w else RunAll(Next(w, events[0]), events[1..])
  }

  lemma StartHolds()
    ensures Inv(START)
  {
    assert Holders(START.modems) == {};
  }

  lemma {:induction false} RunHolds(w: World, events: seq<Event>)
    requires Inv(w) && Possible(w, events)
    ensures Inv(RunAll(w, events))
    decreases |events|
  {
    hide Inv, Next, Enabled;
    if events == [] {
    } else {
      NextHolds(w, events[0]);
      RunHolds(Next(w, events[0]), events[1..]);
    }
  }

  /**
   * Over any interleaving of preloads, modems, resets and command lines, down to single callbacks: modules
   * are loaded exactly while the count is positive; the count is that of outstanding preloads and of banks;
   * every callback runs while they are loaded; every bank that ever was is held by one modem or gone; one
   * that is gone had each of its instances destroyed once, by the module that made it; one in use has lost
   * none.
   */
  lemma PluginsLiveWithTheirBanks(events: seq<Event>)
    requires Possible(START, events)
    ensures var w := RunAll(START, events);
            && (w.host.loaded <==> w.host.refs > 0) && w.host.refs == w.preloads + |Holders(w.modems)|
            && (forall i :: 0 <= i < |w.host.calls| ==> w.host.calls[i].bank < w.nextId && w.host.calls[i].loaded)
            && Numbered(w)
            && (forall m :: m in w.modems ==> HoldSound(w, w.modems[m].hold))
            && (forall i :: 0 <= i < |w.gone| ==> IsGone(w, w.gone[i]))
  {
    hide HoldSound, IsGone, Numbered, Possible, RunAll, PcsSound, Holders;
    StartHolds();
    RunHolds(START, events);
  }

  /** During a command line nobody but its modem's own thread, at the end of the line or when stopped, moves on. */
  predicate LeavesLine(events: seq<Event>, m: nat) {
    EndLine(m) in events || Stop(m) in events
  }

  lemma LineStep(w: World, e: Event, m: nat)
    requires Inv(w) && Enabled(w, e) && m in w.modems && w.modems[m].pc == InLine && e != EndLine(m) && e != Stop(m)
    ensures var w' := Next(w, e);
            m in w'.modems && w'.modems[m].pc == InLine && w'.modems[m].hold == w.modems[m].hold
  {
    assert PcSound(w.modems[m]);
  }

  /**
   * Until a command line ends or its modem is stopped, whatever the line asks for and whatever other modems
   * do, the modem keeps its bank: it stays in use, all its instances exist, none is called to go, and its
   * modules stay loaded.
   */
  lemma {:induction false} BankStaysDuringLine(w: World, events: seq<Event>, m: nat)
    requires Inv(w) && Possible(w, events) && m in w.modems && w.modems[m].pc == InLine && !LeavesLine(events, m)
    ensures var w' := RunAll(w, events);
            && m in w'.modems && w'.modems[m].pc == InLine && w'.modems[m].hold == w.modems[m].hold
            && w'.modems[m].hold.Living? && w'.host.loaded && w'.host.modules == w.host.modules
            && var id := w'.modems[m].hold.bank.id; CallsOf(w'.host.calls, id) == CallsOf(w.host.calls, id)
    decreases |events|
  {
    LineFacts(w, m);
    if events == [] {
    } else {
      hide Inv, Next, Enabled, CallsOf;
      LineStep(w, events[0], m);
      NextHolds(w, events[0]);
      LineFacts(Next(w, events[0]), m);
      BankStaysDuringLine(Next(w, events[0]), events[1..], m);
    }
  }

  /** What holds of a modem in a command line. */
  lemma LineFacts(w: World, m: nat)
    requires Inv(w) && m in w.modems && w.modems[m].pc == InLine
    ensures w.modems[m].hold.Living? && w.host.loaded
    ensures var b := w.modems[m].hold.bank;
            && b.modules == w.host.modules && |b.instances| == |b.modules|
            && CallsOf(w.host.calls, b.id) == Registrations(b, |b.instances|, true)
  {
    assert PcSound(w.modems[m]) && HoldSound(w, w.modems[m].hold);
    HolderIsCounted(w, m);
    hide Registrations, CallsOf, Numbered, Unregistrations;
  }
}
