/** The two kinds of task handles. Each method is proved to do what the corresponding function
    of `SupervisorModel.Handle` says. */
module Handles {
  import opened Wrappers
  import opened FunctionQueues
  import opened SupervisorModel

  /** The only function that is ever queued: it reports a changed state. */
  datatype Callback = CurrentStateChanged

  class AsyncStartStopTask {
    var running: bool
    var shouldWork: bool
    var currentOperation: Option<Operation>

    ghost function View(): Handle
      reads this
    {
      Handle(StartStop, running, shouldWork, currentOperation, 0, 0)
    }

    constructor ()
      ensures View() == NewHandle(StartStop)
    {
      running, shouldWork, currentOperation := false, false, None;
    }

    method SetShouldWork(s: bool)
      modifies this
      ensures View() == old(View()).SetShouldWork(s)
    {
      shouldWork := s;
      EnqueueJob();
    }

    method EnqueueJob()
      modifies this
      ensures View() == old(View()).EnqueueJob()
    {
      if currentOperation.Some? {
        return;
      }
      if running == shouldWork {
        return;
      }
      if shouldWork {
        currentOperation := Some(Start);
      } else {
        currentOperation := Some(Stop);
      }
    }

    /** The completion callbacks, up to the report. */
    method OnChildExit()
      requires currentOperation.Some? && View().Ok()
      modifies this
      ensures View() == old(View()).Complete()
    {
      match currentOperation.value
      case Start =>
        assert !running;
        running := true;
        currentOperation := None;
        EnqueueJob();
      case Stop =>
        assert running;
        running := false;
        currentOperation := None;
        EnqueueJob();
    }
  }

  class SyncTaskAdaptor {
    var running: bool
    /** Whether the task object exists; its creation may fail while the task counts as running. */
    var instance: bool
    const fq: FunctionQueue<Callback>
    /** The outcomes of the calls of `create_task` so far. */
    ghost var attempts: seq<bool>

    ghost predicate Valid()
      reads this, fq
    {
      fq.Valid() && (instance ==> running)
    }

    ghost function View(): Handle
      reads this, fq
    {
      Handle(Synchronous, running, false, None, |fq.queue|, fq.counter)
    }

    constructor ()
      ensures Valid() && View() == NewHandle(Synchronous) && fresh(fq)
      ensures !instance && attempts == []
    {
      running, instance, attempts := false, false, [];
      fq := new FunctionQueue();
    }

    /** `create_task`, which may throw. */
    method CreateTask() returns (created: bool)
      modifies this`attempts
      ensures attempts == old(attempts) + [created]
    {
      created := *;
      attempts := attempts + [created];
    }

    method SetShouldWork(s: bool)
      requires Valid()
      modifies this, fq
      ensures Valid() && View() == old(View()).SetShouldWork(s)
      ensures s && old(instance) ==> instance
      ensures !s ==> !instance
      ensures attempts == if s && !old(instance) then old(attempts) + [instance] else old(attempts)
    {
      running := s;
      if running {
        if !instance {
          instance := CreateTask();
        }
        fq.Push(CurrentStateChanged);
      } else {
        instance := false;
        fq.Push(CurrentStateChanged);
      }
    }

    method OnReadable()
      requires Valid() && fq.counter > 0
      modifies fq
      ensures Valid() && old(View()).queued > 0 && View() == old(View()).Wake()
    {
      var f := fq.OnReadable();
      assert f == CurrentStateChanged;
    }
  }

  datatype TaskHandle = AsyncHandle(task: AsyncStartStopTask) | SyncHandle(adaptor: SyncTaskAdaptor)
  {
    ghost function Repr(): set<object> {
      match this
      case AsyncHandle(task) => {task}
      case SyncHandle(adaptor) => {adaptor, adaptor.fq}
    }

    ghost predicate Valid()
      reads Repr()
    {
      SyncHandle? ==> adaptor.Valid()
    }

    ghost function View(): Handle
      reads Repr()
    {
      match this
      case AsyncHandle(task) => task.View()
      case SyncHandle(adaptor) => adaptor.View()
    }

    predicate IsRunning()
      reads Repr()
      ensures IsRunning() == View().running
    {
      match this
      case AsyncHandle(task) => task.running
      case SyncHandle(adaptor) => adaptor.running
    }

    predicate IsInTransition()
      reads Repr()
      ensures IsInTransition() == View().InTransition()
    {
      match this
      case AsyncHandle(task) => task.currentOperation.Some?
      case SyncHandle(adaptor) => false
    }

    /** The calls of `create_task` so far, with their outcomes; an asynchronous task has none. */
    ghost function Attempts(): seq<bool>
      reads Repr()
    {
      match this
      case AsyncHandle(_) => []
      case SyncHandle(adaptor) => adaptor.attempts
    }

    /** The task object of a synchronous task exists. */
    predicate Created()
      reads Repr()
    {
      SyncHandle? && adaptor.instance
    }

    /** A synchronous task without a task object gets exactly one attempt to create it when it is
        to work, and loses the object when it is not. */
    method SetShouldWork(s: bool)
      requires Valid()
      modifies Repr()
      ensures Valid() && View() == old(View()).SetShouldWork(s)
      ensures if s then old(Created()) ==> Created() else !Created()
      ensures Attempts() ==
        if SyncHandle? && s && !old(Created()) then old(Attempts()) + [Created()] else old(Attempts())
    {
      match this
      case AsyncHandle(task) => task.SetShouldWork(s);
      case SyncHandle(adaptor) => adaptor.SetShouldWork(s);
    }
  }

  twostate lemma HandleKept(h: TaskHandle)
    requires unchanged(h.Repr())
    ensures h.View() == old(h.View()) && h.Valid() == old(h.Valid())
    ensures h.Attempts() == old(h.Attempts()) && h.Created() == old(h.Created())
  {
  }

  /** `create_async_task_handle`. */
  method CreateTaskHandle(kind: Kind) returns (h: TaskHandle)
    ensures h.Valid() && h.View() == NewHandle(kind) && fresh(h.Repr())
    ensures h.Attempts() == [] && !h.Created()
  {
    match kind
    case StartStop =>
      var t := new AsyncStartStopTask();
      h := AsyncHandle(t);
    case Synchronous =>
      var a := new SyncTaskAdaptor();
      h := SyncHandle(a);
  }
}
