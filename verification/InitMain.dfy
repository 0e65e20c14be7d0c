/** `context` and the main loop of init. */
module InitMain {
  import opened Wrappers
  import opened TaskGraph
  import opened SupervisorModel
  import opened SupervisorInvariant
  import opened SupervisorRuns
  import opened Supervisor

  class Context {
    var tg: Target
    const state: InitdState

    ghost predicate Valid()
      reads this, state, state.tasks, state.handleObjects
    {
      && this !in state.handleObjects
      && state.Valid()
      && SysInv(state.config, View())
    }

    ghost function View(): System
      requires state.HandlesValid()
      reads `tg, state, state.tasks, state.handleObjects
    {
      System(state.View(), tg)
    }

    /** The constructor up to the boot switch. */
    constructor (descrs: seq<TaskDescription>, levels: map<string, seq<nat>>)
      requires forall i | 0 <= i < |descrs| :: Ids(descrs[i].dependencies, |descrs|)
      requires forall name | name in levels :: Ids(levels[name], |descrs|)
      ensures Valid() && tg == Running && fresh(state) && fresh(state.handleObjects)
      ensures forall t | t in state.tasks :: fresh(t)
      ensures state.config.runLevels == levels && state.config.g.deps == DepsOf(descrs, |descrs|)
      ensures View().state == Initial(state.config.g, state.config.kinds)
    {
      hide SysInv, InitdState.Wired, InitdState.HandlesValid, InitdState.View, Initial, DepsOf;
      tg := Running;
      state := new InitdState(descrs, levels);
      new;
      state.WiredConfig();
      InitialSystem(state.config);
    }

    /** Everything that an event may change. */
    ghost function Frame(): set<object>
      reads this, state
    {
      {this, state} + (set t | t in state.tasks) + state.handleObjects
    }

    predicate IsActive()
      reads `tg, state`pendingTasks
    {
      tg == Running || state.HasPendingOperations()
    }

    lemma StepValid(e: Event)
      requires state.HandlesValid() && SysInv(state.config, View()) && Enabled(View(), e)
      ensures SysInv(state.config, Step(state.config, View(), e))
    {
      StepKeepsInv(state.config, View(), e, Wishes(View().state));
    }

    lemma StateWired()
      requires Valid()
      ensures state !in state.handleObjects && forall t | t in state.tasks :: t !in state.handleObjects
    {
      state.Apart();
    }

    /** A termination signal, or a control message. */
    method Reboot()
      requires Valid()
      modifies Frame()
      ensures Valid() && state.Fixed()
      ensures View() == Step(state.config, old(View()), RebootRequested)
    {
      hide SysInv, InitdState.Wired, InitdState.HandlesValid, InitdState.View;
      StepValid(RebootRequested);
      StateWired();
      tg := Target.Reboot;
      state.SetEmptyRunLevel();
    }

    method PowerOff()
      requires Valid()
      modifies Frame()
      ensures Valid() && state.Fixed()
      ensures View() == Step(state.config, old(View()), PowerOffRequested)
    {
      hide SysInv, InitdState.Wired, InitdState.HandlesValid, InitdState.View;
      StepValid(PowerOffRequested);
      StateWired();
      tg := Target.PowerOff;
      state.SetEmptyRunLevel();
    }

    /** The target is set before the run level is looked up; the result says whether there is
        one of that name. */
    method SetRunLevel(name: string) returns (found: bool)
      requires Valid()
      modifies Frame()
      ensures Valid() && state.Fixed() && found == (name in state.config.runLevels)
      ensures View() == Step(state.config, old(View()), RunLevelRequested(name))
    {
      hide SysInv, InitdState.Wired, InitdState.HandlesValid, InitdState.View;
      StepValid(RunLevelRequested(name));
      StateWired();
      tg := Running;
      found := state.SetRunLevel(name);
    }

    lemma OperationOk(i: nat)
      requires Valid() && Enabled(View(), ChildExited(i))
      ensures i < |state.tasks| && state.tasks[i].handle.View().Ok()
      ensures state.tasks[i].handle.IsInTransition()
    {
      assert View().state.tasks[i].h.Ok();
    }

    method OnChildExit(i: nat)
      requires Valid() && Enabled(View(), ChildExited(i))
      modifies Frame()
      ensures Valid() && state.Fixed()
      ensures View() == Step(state.config, old(View()), ChildExited(i))
    {
      hide SysInv, InitdState.Wired, InitdState.HandlesValid, InitdState.View;
      StepValid(ChildExited(i));
      StateWired();
      OperationOk(i);
      state.ChildExit(i);
    }

    method OnQueueWake(i: nat)
      requires Valid() && Enabled(View(), QueueWoke(i))
      modifies Frame()
      ensures Valid() && state.Fixed()
      ensures View() == Step(state.config, old(View()), QueueWoke(i))
    {
      hide SysInv, InitdState.Wired, InitdState.HandlesValid, InitdState.View;
      StepValid(QueueWoke(i));
      StateWired();
      state.QueueWake(i);
    }

    /** One event from epoll, handled to the end. */
    method Handle(e: Event)
      requires Valid() && Enabled(View(), e)
      modifies Frame()
      ensures Valid() && state.Fixed()
      ensures View() == Step(state.config, old(View()), e)
    {
      hide SysInv, Step, InitdState.Wired, InitdState.HandlesValid, InitdState.View;
      match e {
        case ChildExited(i) => OnChildExit(i);
        case QueueWoke(i) => OnQueueWake(i);
        case RebootRequested => Reboot();
        case PowerOffRequested => PowerOff();
        case RunLevelRequested(name) => var found := SetRunLevel(name);
      }
    }

    /** The main loop over the events that epoll delivers. When it leaves the loop because the
        context is no longer active, every task has been shut down. */
    method MainLoop(events: seq<Event>) returns (handled: nat)
      requires Valid() && After(state.config, View(), events).Some?
      modifies Frame()
      ensures Valid() && state.Fixed() && handled <= |events|
      ensures After(state.config, old(View()), events[..handled]) == Some(View())
      ensures handled < |events| ==> !IsActive()
      ensures forall k: nat | LastRequest(events[..handled], k) :: Answers(tg, events[k])
      ensures AllInternal(events[..handled]) ==> tg == old(tg)
      ensures !IsActive() ==>
                && (tg == Target.Reboot || tg == Target.PowerOff)
                && forall t | t in state.tasks ::
                     !t.handle.IsRunning() && !t.handle.IsInTransition()
    {
      hide SysInv, InitdState.Wired, InitdState.HandlesValid, InitdState.View, After, Step, Enabled;
      hide Answers, AllInternal;
      AfterNothing(state.config, View(), events);
      handled := 0;
      while IsActive() && handled < |events|
        invariant handled <= |events| && Valid() && state.Fixed()
        invariant SysInv(state.config, old(View()))
        invariant After(state.config, old(View()), events[..handled]) == Some(View())
        invariant After(state.config, View(), events[handled..]).Some?
        decreases |events| - handled
      {
        AfterAdvance(state.config, old(View()), events[..handled], View(), events[handled..]);
        Slices(events, handled);
        Handle(events[handled]);
        handled := handled + 1;
      }
      TargetExactly(state.config, old(View()), events[..handled]);
      if !IsActive() {
        Stopped();
      }
    }

    lemma Stopped()
      requires Valid() && !IsActive()
      ensures tg == Target.Reboot || tg == Target.PowerOff
      ensures forall t | t in state.tasks ::
                !t.handle.IsRunning() && !t.handle.IsInTransition()
    {
      forall t | t in state.tasks ensures !t.handle.IsRunning() && !t.handle.IsInTransition() {
        var i: nat :| i < |state.tasks| && state.tasks[i] == t;
        InactiveStopped(state.config, View(), i);
      }
      InactiveTarget(state.config, View());
    }

    /** The rest of the constructor of `context`: it fails when there is no run level called
        default. */
    method Boot() returns (started: bool)
      requires Valid() && tg == Running
      requires View().state == Initial(state.config.g, state.config.kinds)
      modifies Frame()
      ensures Valid() && state.Fixed() && started == ("default" in state.config.runLevels)
      ensures started ==> SupervisorRuns.Boot(state.config) == Option.Some(View())
      ensures !started ==> View() == old(View())
    {
      hide InitdState.Wired, InitdState.HandlesValid, InitdState.View, Inv;
      StateWired();
      if "default" in state.config.runLevels {
        BootKeepsInv(state.config);
      }
      started := state.SetRunLevel("default");
    }
  }

  lemma InitialSystem(c: Config)
    requires ValidConfig(c)
    ensures SysInv(c, System(Initial(c.g, c.kinds), Running))
  {
    InitialInv(c.g, c.kinds);
  }

  lemma AfterNothing(c: Config, sys: System, events: seq<Event>)
    requires SysInv(c, sys)
    ensures After(c, sys, events[..0]) == Some(sys)
    ensures After(c, sys, events[0..]) == After(c, sys, events)
  {
    assert events[0..] == events;
  }

  lemma InactiveTarget(c: Config, sys: System)
    requires !SupervisorRuns.IsActive(sys)
    ensures sys.target == Target.Reboot || sys.target == Target.PowerOff
  {
  }

  lemma Slices<T>(s: seq<T>, k: nat)
    requires k < |s|
    ensures s[k..][0] == s[k] && s[k..][1..] == s[k + 1..] && s[..k] + [s[k]] == s[..k + 1]
  {
  }
}
