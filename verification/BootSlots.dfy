/**
 The A/B slots: the variables that `deploy/boot/boot.cmd`, `deploy/system/bb-boot-ok.service` and
 `tools/bb-update/bb_update.c` share, as a machine whose histories are boots, handshakes and installs.
 */
module BootSlots {
  import opened Options

  const ATTEMPTS: int := 3

  datatype Slot = A | B {
    function Other(): Slot {
      if A? then B else A
    }

    function Name(): string {
      if A? then "a" else "b"
    }
  }

  // The saved environment; the slot is whatever text the variable holds.
  datatype Env = Env(slot: string, attempt: int, ok: bool)

  // An unknown slot counts as the first.
  function Chosen(env: Env): Slot {
    if env.slot == "b" then B else A
  }

  // boot.cmd
  function Booted(env: Env): Env {
    var slot := Chosen(env);
    if env.attempt > 0 then env.(slot := slot.Name(), attempt := env.attempt - 1)
    else env.(slot := slot.Other().Name(), attempt := ATTEMPTS)
  }

  // bb-boot-ok.service
  function HandshakeDone(env: Env): Env {
    env.(ok := true, attempt := ATTEMPTS)
  }

  // The slot bb_update_install writes to: the one that the variable's first letter is not.
  function Target(env: Env): Slot {
    if env.slot != [] && env.slot[0] == 'a' then B else A
  }

  function Installed(env: Env): Env {
    Env(Target(env).Name(), ATTEMPTS, false)
  }

  // ---- Histories ----

  datatype Event = Boot | Handshake | Install

  // The environment, the slot that runs, and how many installs there were since it booted.
  datatype Machine = Machine(env: Env, running: Option<Slot>, installs: nat)

  const DEFAULT := Machine(Env("a", ATTEMPTS, false), None, 0)

  // Handshakes and installs are the running system's.
  predicate Enabled(m: Machine, e: Event) {
    e == Boot || m.running.Some?
  }

  function Next(m: Machine, e: Event): Machine {
    match e
    case Boot => Machine(Booted(m.env), Some(Chosen(Booted(m.env))), 0)
    case Handshake => m.(env := HandshakeDone(m.env))
    case Install => m.(env := Installed(m.env), installs := m.installs + 1)
  }

  function Run(m: Machine, es: seq<Event>): Machine
    decreases |es|
  {
    if es == [] then m else Next(Run(m, es[..|es| - 1]), es[|es| - 1])
  }

  predicate Possible(m: Machine, es: seq<Event>) {
    forall i :: 0 <= i < |es| ==> Enabled(Run(m, es[..i]), es[i])
  }

  lemma RunSnoc(m: Machine, es: seq<Event>, i: nat)
    requires i < |es|
    ensures Run(m, es[..i + 1]) == Next(Run(m, es[..i]), es[i])
  {
    assert es[..i + 1][..i] == es[..i];
  }

  /** boot_ok says exactly whether a handshake has come since the last install; without either it is what it was. */
  lemma {:induction false} OkMeansHandshake(m: Machine, es: seq<Event>)
    ensures Run(m, es).env.ok <==>
              || (exists i :: 0 <= i < |es| && es[i] == Handshake && forall k :: i < k < |es| ==> es[k] != Install)
              || (m.env.ok && forall k :: 0 <= k < |es| ==> es[k] != Install)
    decreases |es|
  {
    if es != [] {
      var before, last := es[..|es| - 1], |es| - 1;
      OkMeansHandshake(m, before);
      assert forall k :: 0 <= k < last ==> before[k] == es[k];
    }
  }

  /** A boot with attempts left keeps the slot and uses one up; otherwise it goes to the other slot with three anew. An unknown slot is the first. */
  lemma BootChooses(env: Env)
    ensures var t := Booted(env);
            && (t.slot == "a" || t.slot == "b") && t.ok == env.ok
            && (t.slot == "b" <==> (env.slot == "b") == (env.attempt > 0))
            && t.attempt == if env.attempt > 0 then env.attempt - 1 else 3
  {
    assert "a" != "b";
  }

  predicate Counted(m: Machine) {
    0 <= m.env.attempt <= ATTEMPTS
  }

  lemma {:induction false} AlwaysCounted(m: Machine, es: seq<Event>)
    requires Counted(m)
    ensures Counted(Run(m, es))
    decreases |es|
  {
    if es != [] {
      AlwaysCounted(m, es[..|es| - 1]);
    }
  }

  // ---- When a slot is left ----

  // A boot that finds no attempt left runs the other slot.
  predicate FallsBack(m: Machine, es: seq<Event>, i: nat)
    requires i < |es|
  {
    es[i] == Boot && Chosen(Run(m, es[..i + 1]).env) != Chosen(Run(m, es[..i]).env)
  }

  // An attempt was used up: the last event was a boot of the slot chosen then and now.
  lemma Decremented(m: Machine, es: seq<Event>, i: nat)
    requires i <= |es| && m.env.attempt == ATTEMPTS && Run(m, es[..i]).env.attempt < ATTEMPTS
    ensures i > 0 && es[i - 1] == Boot
    ensures var was, now := Run(m, es[..i - 1]), Run(m, es[..i]);
            was.env.attempt == now.env.attempt + 1 && Chosen(now.env) == Chosen(was.env) && now.running == Some(Chosen(now.env))
  {
    assert es[..0] == [];
    if i > 0 {
      RunSnoc(m, es, i - 1);
    }
  }

  /**
   Whatever happened before, a slot is left by fallback only after three boots of it in a row with
   no handshake and no install between or behind them.
   */
  lemma FallbackAfterThree(m: Machine, es: seq<Event>, i: nat)
    requires m.env.attempt == ATTEMPTS && i < |es| && FallsBack(m, es, i)
    ensures i >= 3 && es[i - 3] == es[i - 2] == es[i - 1] == Boot
    ensures var left := Some(Chosen(Run(m, es[..i]).env));
            Run(m, es[..i - 2]).running == left && Run(m, es[..i - 1]).running == left && Run(m, es[..i]).running == left
  {
    RunSnoc(m, es, i);
    AlwaysCounted(m, es[..i]);
    assert Run(m, es[..i]).env.attempt == 0;
    Decremented(m, es, i);
    Decremented(m, es, i - 1);
    Decremented(m, es, i - 2);
  }

  // ---- Slots that always or never reach the handshake ----

  // A boot, and the handshake if the slot that runs is healthy.
  function Cycle(m: Machine, healthy: set<Slot>): Machine {
    var b := Next(m, Boot);
    if b.running.value in healthy then Next(b, Handshake) else b
  }

  function Cycles(m: Machine, healthy: set<Slot>, k: nat): Machine {
    if k == 0 then m else Cycle(Cycles(m, healthy, k - 1), healthy)
  }

  /** A slot that always reaches the handshake is never left. */
  lemma {:induction false} HealthyStays(m: Machine, healthy: set<Slot>, k: nat)
    requires m.env.attempt > 0 && Chosen(m.env) in healthy
    ensures Cycles(m, healthy, k).env.attempt > 0 && Chosen(Cycles(m, healthy, k).env) == Chosen(m.env)
    ensures k > 0 ==> Cycles(m, healthy, k).running == Some(Chosen(m.env))
    decreases k
  {
    if k > 0 {
      HealthyStays(m, healthy, k - 1);
    }
  }

  // A dead slot uses up its attempts.
  lemma {:induction false} DeadCounts(m: Machine, healthy: set<Slot>, k: nat)
    requires Chosen(m.env) !in healthy && k <= m.env.attempt
    ensures Cycles(m, healthy, k).env.attempt == m.env.attempt - k && Chosen(Cycles(m, healthy, k).env) == Chosen(m.env)
    ensures k > 0 ==> Cycles(m, healthy, k).running == Some(Chosen(m.env))
    decreases k
  {
    if k > 0 {
      DeadCounts(m, healthy, k - 1);
    }
  }

  /**
   A dead slot boots exactly as often as attempts are left; then, if the other slot is healthy, it
   boots and stays for good.
   */
  lemma {:induction false} DeadSlotGivesWay(m: Machine, healthy: set<Slot>, k: nat)
    requires Counted(m) && Chosen(m.env) !in healthy && Chosen(m.env).Other() in healthy && k > 0
    ensures var dead := Chosen(m.env);
            Cycles(m, healthy, k).running == Some(if k <= m.env.attempt then dead else dead.Other())
    ensures k > m.env.attempt ==>
              Cycles(m, healthy, k).env.attempt > 0 && Chosen(Cycles(m, healthy, k).env) == Chosen(m.env).Other()
    decreases k
  {
    if k <= m.env.attempt {
      DeadCounts(m, healthy, k);
    } else if k == m.env.attempt + 1 {
      DeadCounts(m, healthy, k - 1);
    } else {
      DeadSlotGivesWay(m, healthy, k - 1);
    }
  }

  // ---- Installs ----

  predicate Even(n: nat) {
    n % 2 == 0
  }

  // The environment names the running slot after an even number of installs, the other after an odd one.
  predicate Tracks(m: Machine) {
    m.running.Some? ==> m.env.slot == (if Even(m.installs) then m.running.value else m.running.value.Other()).Name()
  }

  lemma Parity(n: nat)
    ensures Even(n + 1) <==> !Even(n)
  {
  }

  lemma TracksNext(m: Machine, e: Event)
    requires Tracks(m) && Enabled(m, e)
    ensures Tracks(Next(m, e))
  {
    if e == Install {
      Parity(m.installs);
      assert m.env.slot[0] == if m.env.slot == "a" then 'a' else 'b';
    }
  }

  lemma {:induction false} AlwaysTracks(m: Machine, es: seq<Event>)
    requires m.running == None && Possible(m, es)
    ensures Tracks(Run(m, es))
    decreases |es|
  {
    if es != [] {
      var before := es[..|es| - 1];
      assert forall i :: 0 <= i < |before| ==> before[..i] == es[..i];
      AlwaysTracks(m, before);
      TracksNext(Run(m, before), es[|es| - 1]);
    }
  }

  lemma TargetIs(m: Machine)
    requires Tracks(m) && m.running.Some?
    ensures Target(m.env) == if Even(m.installs) then m.running.value.Other() else m.running.value
  {
    assert m.env.slot[0] == if m.env.slot == "a" then 'a' else 'b';
  }

  lemma TrialBegins(m: Machine)
    requires Tracks(m) && m.running.Some? && m.installs == 0
    ensures Chosen(Next(m, Install).env) == m.running.value.Other() && Next(m, Install).env.attempt == ATTEMPTS
  {
    TargetIs(m);
  }

  /** An install leaves the running slot alone exactly when the installs since the boot are even in number. */
  lemma InstallTarget(m: Machine, es: seq<Event>)
    requires m.running == None && Possible(m, es) && Run(m, es).running.Some?
    ensures Target(Run(m, es).env) != Run(m, es).running.value <==> Even(Run(m, es).installs)
  {
    AlwaysTracks(m, es);
    TargetIs(Run(m, es));
  }

  lemma TrialEnds(m: Machine, healthy: set<Slot>, k: nat)
    requires Tracks(m) && m.running.Some? && m.installs == 0 && k > 0
    requires m.running.value in healthy && m.running.value.Other() !in healthy
    ensures Cycles(Next(m, Install), healthy, k).running == Some(if k <= 3 then m.running.value.Other() else m.running.value)
  {
    TrialBegins(m);
    DeadSlotGivesWay(Next(m, Install), healthy, k);
  }

  /**
   The first install after a boot: if the new slot never reaches the handshake it boots exactly three
   times, and from the fourth boot on the slot that was running is back, as long as it is healthy.
   */
  lemma InstallRollsBack(m: Machine, es: seq<Event>, healthy: set<Slot>, k: nat)
    requires m.running == None && Possible(m, es) && Run(m, es).running.Some? && Run(m, es).installs == 0
    requires var was := Run(m, es).running.value; was in healthy && was.Other() !in healthy
    requires k > 0
    ensures var was := Run(m, es).running.value;
            Cycles(Next(Run(m, es), Install), healthy, k).running == Some(if k <= 3 then was.Other() else was)
  {
    AlwaysTracks(m, es);
    TrialEnds(Run(m, es), healthy, k);
  }

  // ---- The scripts ----

  class Environment {
    var bootSlot: string
    var bootAttempt: int
    var bootOk: bool
    var bootPart: int            // of the run, not saved
    const bootAPart: int
    const bootBPart: int

    constructor (env: Env, aPart: int, bPart: int)
      ensures View() == env && bootAPart == aPart && bootBPart == bPart
    {
      bootSlot, bootAttempt, bootOk, bootPart := env.slot, env.attempt, env.ok, 0;
      bootAPart, bootBPart := aPart, bPart;
    }

    ghost function View(): Env
      reads this
    {
      Env(bootSlot, bootAttempt, bootOk)
    }

    // The slot that the partition loaded from belongs to
    ghost predicate Loads(s: Slot)
      reads this
    {
      bootPart == if s == A then bootAPart else bootBPart
    }

    method BootScript()
      modifies this
      ensures View() == Booted(old(View()))
      ensures Loads(Chosen(View()))
    {
      if bootSlot == "a" {
        bootPart := bootAPart;
      } else if bootSlot == "b" {
        bootPart := bootBPart;
      } else {
        bootSlot := "a";
        bootPart := bootAPart;
      }
      if bootAttempt > 0 {
        bootAttempt := bootAttempt - 1;
      } else {
        if bootSlot == "a" {
          bootSlot := "b";
          bootPart := bootBPart;
        } else {
          bootSlot := "a";
          bootPart := bootAPart;
        }
        bootAttempt := 3;
      }
    }

    method BootOk()
      modifies this
      ensures View() == HandshakeDone(old(View())) && bootPart == old(bootPart)
    {
      bootOk := true;
      bootAttempt := 3;
    }

    // The slot choice and the variables of bb_update_install, the package being verified and unpacked or not
    method InstallPackage(verified: bool, unpacked: bool) returns (rc: int)
      modifies this
      ensures rc == if verified && unpacked then 0 else -1
      ensures View() == if rc == 0 then Installed(old(View())) else old(View())
      ensures rc == 0 ==> bootSlot == if "a" <= old(bootSlot) then "b" else "a"
      ensures bootPart == old(bootPart)
    {
      if !verified {
        return -1;
      }
      var current := if bootSlot == [] then '\n' else bootSlot[0];
      var target := if current == 'a' then 'b' else 'a';
      if !unpacked {
        return -1;
      }
      bootSlot := [target];
      bootAttempt := 3;
      bootOk := false;
      rc := 0;
    }
  }
}
