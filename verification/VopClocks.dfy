/** Clock and runtime-PM references of the display controller, including the
    takeover of a scanout the bootloader left running. Clock and PM calls are
    their reference counts; every call that can fail may fail. */
module VopClocks {

  datatype Refs = Refs(
    hclk: int, aclk: int, dclk: int, pm: int,
    hclkPrepared: int, aclkPrepared: int, dclkPrepared: int,
    isEnabled: bool, loaderActive: bool)

  const POWERED_DOWN := Refs(0, 0, 0, 0, 0, 0, 0, false, false)

  /** Where `vop_initial` gives up, if it does. */
  datatype InitialFault = NoFault | ClockLookup | PmGet | DclkPrepare | HclkEnable | AclkEnable | AhbReset | DclkReset

  /** Where `vop_enable` gives up, if it does. */
  datatype EnableFault = EnableOk | PmResume | CoreHclk | CoreAclk | Dclk | DmaAttach

  function Held(b: bool): int { if b then 1 else 0 }

  /** All four run-time references moved together. */
  function Move(v: Refs, n: int): Refs {
    v.(hclk := v.hclk + n, aclk := v.aclk + n, dclk := v.dclk + n, pm := v.pm + n)
  }

  /** `vop_enable`: take one reference of each, then drop the bootloader's. */
  function Enable(v: Refs, fault: EnableFault): Refs {
    if fault != EnableOk then v
    else if v.loaderActive then v.(isEnabled := true, loaderActive := false)
    else Move(v, 1).(isEnabled := true)
  }

  function Disable(v: Refs): Refs { Move(v, -1).(isEnabled := false) }

  /** `vop_initial` on a device whose windows are being scanned or not, with the
      takeover's own dclk enable failing or not. */
  function Initial(v: Refs, fault: InitialFault, scanning: bool, takeoverFails: bool): Refs {
    match fault
    case AhbReset => v.(loaderActive := scanning)
    case DclkReset => v.(loaderActive := scanning)
    case NoFault =>
      var p := v.(hclkPrepared := v.hclkPrepared + 1, aclkPrepared := v.aclkPrepared + 1,
                  dclkPrepared := v.dclkPrepared + 1, isEnabled := false, loaderActive := scanning);
      if !scanning then p
      else if takeoverFails then p.(hclk := v.hclk + 1, aclk := v.aclk + 1, pm := v.pm + 1)
      else Move(p, 1)
    case _ => v
  }

  /** What the start of `vop_initial` takes, or its error path gives back. */
  function Taken(v: Refs, n: int): Refs {
    v.(hclk := v.hclk + n, aclk := v.aclk + n, hclkPrepared := v.hclkPrepared + n,
       aclkPrepared := v.aclkPrepared + n, dclkPrepared := v.dclkPrepared + n)
  }

  class Vop {
    var hclk: int
    var aclk: int
    var dclk: int
    var pm: int
    var hclkPrepared: int
    var aclkPrepared: int
    var dclkPrepared: int
    var isEnabled: bool
    var loaderActive: bool

    ghost function Model(): Refs
      reads this
    {
      Refs(hclk, aclk, dclk, pm, hclkPrepared, aclkPrepared, dclkPrepared, isEnabled, loaderActive)
    }

    method CoreClksEnable(hclkFails: bool, aclkFails: bool) returns (ok: bool)
      modifies this`hclk, this`aclk
      ensures ok == (!hclkFails && !aclkFails)
      ensures hclk == old(hclk) + Held(ok) && aclk == old(aclk) + Held(ok)
    {
      if hclkFails {
        return false;
      }
      hclk := hclk + 1;
      if aclkFails {
        hclk := hclk - 1;
        return false;
      }
      aclk := aclk + 1;
      return true;
    }

    method CoreClksDisable()
      modifies this`hclk, this`aclk
      ensures hclk == old(hclk) - 1 && aclk == old(aclk) - 1
    {
      aclk := aclk - 1;
      hclk := hclk - 1;
    }

    method EnableCrtc(fault: EnableFault) returns (ok: bool)
      modifies this
      ensures ok == (fault == EnableOk)
      ensures Model() == Enable(old(Model()), fault)
    {
      if fault == PmResume {
        return false;
      }
      pm := pm + 1;
      ok := CoreClksEnable(fault == CoreHclk, fault == CoreAclk);
      if !ok {
        pm := pm - 1;
        return false;
      }
      if fault == Dclk {
        CoreClksDisable();
        pm := pm - 1;
        return false;
      }
      dclk := dclk + 1;
      if fault == DmaAttach {
        dclk := dclk - 1;
        CoreClksDisable();
        pm := pm - 1;
        return false;
      }
      isEnabled := true;
      if loaderActive {
        loaderActive := false;
        dclk := dclk - 1;
        CoreClksDisable();
        pm := pm - 1;
      }
      return true;
    }

    method DisableCrtc(selfRefresh: bool)
      modifies this
      ensures Model() == if selfRefresh then old(Model()) else Disable(old(Model()))
    {
      if selfRefresh {
        return;
      }
      isEnabled := false;
      dclk := dclk - 1;
      CoreClksDisable();
      pm := pm - 1;
    }

    /** The interrupt handler's own references, around whatever it handles. */
    method Isr(inUse: bool, hclkFails: bool, aclkFails: bool)
      modifies this`hclk, this`aclk, this`pm
      ensures Model() == old(Model())
    {
      if !inUse {
        return;
      }
      pm := pm + 1;
      var ok := CoreClksEnable(hclkFails, aclkFails);
      if ok {
        CoreClksDisable();
      }
      pm := pm - 1;
    }

    /** The end of a setup that got everything: keep the bootloader's picture alive,
        or let go of the clocks until the first modeset. */
    method FinishSetup(takeoverFails: bool)
      modifies this
      ensures Model() == var v := old(Model()).(isEnabled := false);
                         if !v.loaderActive then v.(hclk := v.hclk - 1, aclk := v.aclk - 1, pm := v.pm - 1)
                         else if takeoverFails then v else v.(dclk := v.dclk + 1)
    {
      if loaderActive {
        if !takeoverFails {
          dclk := dclk + 1;
        }
      } else {
        hclk := hclk - 1;
        aclk := aclk - 1;
      }
      isEnabled := false;
      if !loaderActive {
        pm := pm - 1;
      }
    }

    method InitialSetup(fault: InitialFault, scanning: bool, takeoverFails: bool) returns (ok: bool)
      modifies this
      ensures ok == (fault == NoFault)
      ensures Model() == Initial(old(Model()), fault, scanning, takeoverFails)
    {
      ok := false;
      if fault == ClockLookup || fault == PmGet {
        return;
      }
      pm := pm + 1;
      var clocks := AcquireClocks(fault);
      if !clocks {
        pm := pm - 1;
        return;
      }
      loaderActive := scanning;
      if fault == AhbReset || fault == DclkReset {
        ReleaseClocks();
        pm := pm - 1;
        return;
      }
      FinishSetup(takeoverFails);
      ok := true;
    }

    /** `vop_bind` from the setup on: a failure after it undoes nothing of it. */
    method BindDevice(fault: InitialFault, scanning: bool, takeoverFails: bool, lateFailure: bool) returns (ok: bool)
      modifies this
      ensures ok == (fault == NoFault && !lateFailure)
      ensures Model() == Initial(old(Model()), fault, scanning, takeoverFails)
    {
      ok := InitialSetup(fault, scanning, takeoverFails);
      if ok && lateFailure {
        ok := false;
      }
    }

    /** Prepare dclk, prepare and enable hclk and aclk, or leave no trace. */
    method AcquireClocks(fault: InitialFault) returns (ok: bool)
      modifies this`dclkPrepared, this`hclkPrepared, this`aclkPrepared, this`hclk, this`aclk
      ensures ok == (fault != DclkPrepare && fault != HclkEnable && fault != AclkEnable)
      ensures Model() == if ok then Taken(old(Model()), 1) else old(Model())
    {
      if fault == DclkPrepare {
        return false;
      }
      dclkPrepared := dclkPrepared + 1;
      if fault == HclkEnable {
        dclkPrepared := dclkPrepared - 1;
        return false;
      }
      hclkPrepared, hclk := hclkPrepared + 1, hclk + 1;
      if fault == AclkEnable {
        hclkPrepared, hclk := hclkPrepared - 1, hclk - 1;
        dclkPrepared := dclkPrepared - 1;
        return false;
      }
      aclkPrepared, aclk := aclkPrepared + 1, aclk + 1;
      return true;
    }

    /** The unwinding labels of the error path, in reverse order of acquisition. */
    method ReleaseClocks()
      modifies this`dclkPrepared, this`hclkPrepared, this`aclkPrepared, this`hclk, this`aclk
      ensures Model() == Taken(old(Model()), -1)
    {
      aclkPrepared, aclk := aclkPrepared - 1, aclk - 1;
      hclkPrepared, hclk := hclkPrepared - 1, hclk - 1;
      dclkPrepared := dclkPrepared - 1;
    }
  }

  // ----- every run

  /** Calls after a successful setup. The core enables only a disabled crtc and
      disables only an enabled one; self-refresh leaves and re-enters an enabled one. */
  datatype Call = EnableCall(fault: EnableFault) | DisableCall | SelfRefreshCall | IsrCall

  predicate Allowed(v: Refs, c: Call) {
    match c
    case EnableCall(_) => !v.isEnabled
    case DisableCall => v.isEnabled
    case SelfRefreshCall => v.isEnabled
    case IsrCall => true
  }

  function Do(v: Refs, c: Call): Refs {
    match c
    case EnableCall(f) => Enable(v, f)
    case DisableCall => Disable(v)
    case _ => v
  }

  predicate AllAllowed(v: Refs, cs: seq<Call>)
    decreases |cs|
  {
    cs == [] || (Allowed(v, cs[0]) && AllAllowed(Do(v, cs[0]), cs[1..]))
  }

  function DoAll(v: Refs, cs: seq<Call>): Refs
    decreases |cs|
  {
    if cs == [] then v else DoAll(Do(v, cs[0]), cs[1..])
  }

  /** What earlier attempts to bind left behind. */
  datatype Leak = Leak(prepares: nat, core: nat, dclk: int)

  const NO_LEAK := Leak(0, 0, 0)

  /** One reference of each per owner, never two owners, and the leaks. */
  predicate Balanced(v: Refs, leak: Leak) {
    && !(v.isEnabled && v.loaderActive)
    && v.hclk == v.aclk == v.pm == Held(v.isEnabled) + Held(v.loaderActive) + leak.core
    && v.dclk == Held(v.isEnabled) + Held(v.loaderActive) + leak.dclk
    && v.hclkPrepared == v.aclkPrepared == v.dclkPrepared == 1 + leak.prepares
  }

  lemma {:induction false} RunBalanced(v: Refs, leak: Leak, cs: seq<Call>)
    requires Balanced(v, leak) && AllAllowed(v, cs)
    ensures Balanced(DoAll(v, cs), leak)
    decreases |cs|
  {
    hide Balanced, Do, Allowed;
    if cs != [] {
      CallBalanced(v, leak, cs[0]);
      RunBalanced(Do(v, cs[0]), leak, cs[1..]);
    }
  }

  lemma CallBalanced(v: Refs, leak: Leak, c: Call)
    requires Balanced(v, leak) && Allowed(v, c)
    ensures Balanced(Do(v, c), leak)
  {}

  lemma BalancedCounts(v: Refs, leak: Leak)
    requires Balanced(v, leak)
    ensures
      var owners := Held(v.isEnabled) + Held(v.loaderActive);
      && 0 <= owners <= 1
      && v.hclk == v.aclk == v.pm == owners + leak.core && v.dclk == owners + leak.dclk
      && v.hclkPrepared == v.aclkPrepared == v.dclkPrepared == 1 + leak.prepares
  {}

  // ----- attempts to bind

  /** An attempt to bind that fails: inside `vop_initial`, or, with NoFault, after it, at
      the interrupt request or the RGB output, where nothing of it is undone. */
  datatype Attempt = Attempt(fault: InitialFault, scanning: bool, takeoverFails: bool)

  function Attempted(v: Refs, attempts: seq<Attempt>): Refs
    decreases |attempts|
  {
    if attempts == [] then v
    else
      var a := attempts[0];
      Attempted(Initial(v, a.fault, a.scanning, a.takeoverFails), attempts[1..])
  }

  /** Only a failure after `vop_initial` leaks: the three prepares, and the references of
      a takeover. */
  function Leaked(attempts: seq<Attempt>): Leak
    decreases |attempts|
  {
    if attempts == [] then NO_LEAK
    else
      var a, rest := attempts[0], Leaked(attempts[1..]);
      if a.fault != NoFault then rest
      else Leak(rest.prepares + 1, rest.core + Held(a.scanning), rest.dclk + Held(a.scanning && !a.takeoverFails))
  }

  lemma {:induction false} AttemptsLeak(v: Refs, attempts: seq<Attempt>)
    ensures
      var r, leak := Attempted(v, attempts), Leaked(attempts);
      && r.hclk == v.hclk + leak.core && r.aclk == v.aclk + leak.core && r.pm == v.pm + leak.core
      && r.dclk == v.dclk + leak.dclk
      && r.hclkPrepared == v.hclkPrepared + leak.prepares && r.aclkPrepared == v.aclkPrepared + leak.prepares
      && r.dclkPrepared == v.dclkPrepared + leak.prepares
      && (r.isEnabled ==> v.isEnabled)
    decreases |attempts|
  {
    hide Initial;
    if attempts != [] {
      var a := attempts[0];
      OneAttempt(v, a);
      AttemptsLeak(Initial(v, a.fault, a.scanning, a.takeoverFails), attempts[1..]);
    }
  }

  lemma OneAttempt(v: Refs, a: Attempt)
    ensures
      var r, late := Initial(v, a.fault, a.scanning, a.takeoverFails), a.fault == NoFault;
      && r.hclk == v.hclk + Held(late && a.scanning) && r.aclk == v.aclk + Held(late && a.scanning)
      && r.pm == v.pm + Held(late && a.scanning)
      && r.dclk == v.dclk + Held(late && a.scanning && !a.takeoverFails)
      && r.hclkPrepared == v.hclkPrepared + Held(late) && r.aclkPrepared == v.aclkPrepared + Held(late)
      && r.dclkPrepared == v.dclkPrepared + Held(late)
      && (r.isEnabled ==> v.isEnabled)
  {}

  /** A bind that succeeds, after those attempts. */
  function Bound(attempts: seq<Attempt>, scanning: bool, takeoverFails: bool): Refs {
    Initial(Attempted(POWERED_DOWN, attempts), NoFault, scanning, takeoverFails)
  }

  /** Its own leak: a failed takeover enable of dclk is never made good. */
  function Short(leak: Leak, scanning: bool, takeoverFails: bool): Leak {
    leak.(dclk := leak.dclk - Held(scanning && takeoverFails))
  }

  lemma BoundBalanced(attempts: seq<Attempt>, scanning: bool, takeoverFails: bool)
    ensures Balanced(Bound(attempts, scanning, takeoverFails), Short(Leaked(attempts), scanning, takeoverFails))
  {
    hide Leaked, Attempted;
    AttemptsLeak(POWERED_DOWN, attempts);
  }

  /** After any failed attempts to bind, a successful one and any run from there, each of
      the four counts is the number of owners, zero or one, plus exactly what the attempts
      that failed after `vop_initial` left behind; and dclk is one short for ever if the
      takeover could not enable it. */
  lemma ReferencesBalance(attempts: seq<Attempt>, scanning: bool, takeoverFails: bool, cs: seq<Call>)
    requires AllAllowed(Bound(attempts, scanning, takeoverFails), cs)
    ensures
      var v, leak := DoAll(Bound(attempts, scanning, takeoverFails), cs), Leaked(attempts);
      var owners := Held(v.isEnabled) + Held(v.loaderActive);
      && 0 <= owners <= 1
      && v.hclk == v.aclk == v.pm == owners + leak.core
      && v.dclk == owners + leak.dclk - Held(scanning && takeoverFails)
      && v.hclkPrepared == v.aclkPrepared == v.dclkPrepared == 1 + leak.prepares
  {
    hide Bound, Leaked, DoAll, AllAllowed, Balanced, Held;
    BoundBalanced(attempts, scanning, takeoverFails);
    var v0 := Bound(attempts, scanning, takeoverFails);
    var leak := Short(Leaked(attempts), scanning, takeoverFails);
    RunBalanced(v0, leak, cs);
    BalancedCounts(DoAll(v0, cs), leak);
  }

  /** So attempts leave no trace exactly when none of them failed after `vop_initial`. */
  lemma {:induction false} LeakFreeIff(attempts: seq<Attempt>)
    ensures Leaked(attempts) == NO_LEAK <==> forall i | 0 <= i < |attempts| :: attempts[i].fault != NoFault
    decreases |attempts|
  {
    if attempts != [] {
      LeakFreeIff(attempts[1..]);
      if forall i | 0 <= i < |attempts[1..]| :: attempts[1..][i].fault != NoFault {
        assert forall i | 1 <= i < |attempts| :: attempts[i] == attempts[1..][i - 1];
      }
      if forall i | 0 <= i < |attempts| :: attempts[i].fault != NoFault {
        assert forall i | 0 <= i < |attempts[1..]| :: attempts[1..][i] == attempts[i + 1];
      }
    }
  }

  /** And after a clean first bind dclk balances in every run exactly when the takeover
      enable, if there was one, succeeded; otherwise one modeset and one disable drive it
      below zero. */
  lemma DclkBalancesIff(scanning: bool, takeoverFails: bool)
    ensures
      var v0 := Bound([], scanning, takeoverFails);
      (forall cs: seq<Call> | AllAllowed(v0, cs) ::
         0 <= DoAll(v0, cs).dclk == Held(DoAll(v0, cs).isEnabled) + Held(DoAll(v0, cs).loaderActive))
      <==> !(scanning && takeoverFails)
  {
    var v0 := Bound([], scanning, takeoverFails);
    forall cs: seq<Call> | AllAllowed(v0, cs)
      ensures DoAll(v0, cs).dclk ==
              Held(DoAll(v0, cs).isEnabled) + Held(DoAll(v0, cs).loaderActive) - Held(scanning && takeoverFails)
    {
      ReferencesBalance([], scanning, takeoverFails, cs);
    }
    hide Bound, DoAll, AllAllowed;
    if scanning && takeoverFails {
      var cs := OneModeset();
      assert AllAllowed(v0, cs) && DoAll(v0, cs).dclk == -1;
    }
  }

  /** One modeset and one disable. */
  lemma OneModeset() returns (cs: seq<Call>)
    ensures AllAllowed(Bound([], true, true), cs) && DoAll(Bound([], true, true), cs).dclk == -1
  {
    var v0 := Bound([], true, true);
    cs := [EnableCall(EnableOk), DisableCall];
    assert cs[1..] == [DisableCall] && cs[1..][1..] == [];
    assert v0.dclk == 0 && v0.loaderActive && !v0.isEnabled;
    hide Bound;
    var v1 := Do(v0, cs[0]);
    assert AllAllowed(Do(v1, DisableCall), []);
    assert AllAllowed(v1, cs[1..]);
    assert DoAll(v0, cs) == DoAll(v1, cs[1..]);
    assert DoAll(v1, cs[1..]) == DoAll(Do(v1, DisableCall), []);
  }

  /** The core's discipline is needed, exactly: from a balanced state a disable
      keeps the balance only if enabled, a successful enable only if not. In
      particular a disable after a failed enable underflows. */
  lemma DisciplineNeeded(v: Refs, leak: Leak)
    requires Balanced(v, leak)
    ensures Balanced(Disable(v), leak) <==> v.isEnabled
    ensures Balanced(Enable(v, EnableOk), leak) <==> !v.isEnabled
    ensures forall f: EnableFault | f != EnableOk :: Enable(v, f) == v
  {}
}
