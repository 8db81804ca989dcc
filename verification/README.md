# Verification of the user-level thread scheduler

This project models the scheduler of the uthreads library (the class `Scheduler`
and the `uthread_*` calls in front of it) and proves what it promises over whole runs.

The scheduler keeps one fact, what each thread is doing, in six places: a table of
threads with a state and a quantum count, a FIFO queue of ready ids, a set of blocked
ids, a map from sleeping ids to wake-up quanta, the id of the running thread and a
quantum counter. Sleeping and blocking are independent; a sleeping thread is in state
READY but not queued. Nothing in the code checks that the queue is non-empty before its
front is taken, that an id looked up is live, or that a deadline fits the `int` it is
converted to. All of this is correct because of an invariant spread over every call.

## How it is laid out

- `Types.dfy`: constants, C integers, the calls and their replies.
- `Queues.dfy`: the ready queue, the scan that erases while indexing, ids in order.
- `Machine.dfy`: the scheduler as a state machine on values (`Sched`, `Step`) and its
  invariant (`Inv`).
- `Runs.dfy`: finite runs of calls, the threads they dispatch, the replies they get.
- `Fairness.dfy`: bounded waiting, no overtaking, liveness of the main thread.
- `Sleep.dfy`: the exact length of a sleep; block and resume do not interfere with it.
- `Accounting.dfy`: every quantum is charged to exactly one thread.
- `Abstraction.dfy`: one status per thread; the containers refine it.
- `Allocation.dfy`: thread ids, and what a terminated thread leaves behind.
- `Scheduler.dfy`, `Uthreads.dfy`: the classes `Thread` and `Scheduler` and the library
  calls, with the fields and loops of the program. Each call is proved to turn
  `View()`, the state as a value, into what `Machine.Step` says. `Uthreads.Execute`
  carries this over to whole runs: a sequence of calls on the object has the states and
  the replies of `Machine` runs, so the theorems about runs hold of the classes.
  (`Perform` and `Execute` stand for the program that uses the library.)

`Machine.Step` is written from the containers. `Abstraction.AbstractStep` is written
independently of them, as a deterministic machine on one status per thread, and
`Abstraction.StepRefines` connects the two for every state and every call.

A run is any sequence of ticks and calls in which the running thread may do anything.
Calls are atomic because the timer signal is masked while they execute. A call in which
the running thread gives up the processor ends in `siglongjmp`, so it ends the step
(`Switched`); the code after `run_next_thread` is not reached.

## Machine integers

Ids arrive as `int` and become `size_t`; a negative id becomes a huge one and is found
in no container. Deadlines are stored as `size_t` and converted back to `int` by the
wake-up test, which the model writes out (`Due`). The result: a sleep of n quanta called
in quantum Q takes hold if and only if Q + n <= INT_MAX. Otherwise the converted deadline
is negative and the thread is queued again, or runs on, in the same call
(`SleepTakesHoldIffItFits`, with a reachable example in `OverflowingSleepExample`).
For Q + n == INT_MAX the source subtracts 1 from the smallest `int`, which C++ leaves
undefined; the model takes two's complement there. That is the only such case: the
subtraction is defined in every other run (`DefinedIffOffBoundary`,
`RunOffBoundaryIsDefined`). The quantum counter is an `int` too:
a call that starts a quantum requires it to be below INT_MAX, since C++ leaves the
overflow undefined. No other call has such a requirement.

## Where the code and its comments differ

- The comment on `uthread_init` calls a non-positive quantum an error; the code refuses
  only negative values, and so does the model.
- The comment on `uthread_sleep` says the thread becomes BLOCKED; in the code it is READY
  with an entry in the sleeping map.
- `remove_thread_from_ready` removes every copy of an id only if no two copies are
  adjacent (`EraseSkippingIffNotAdjacent`). The queue never holds two.

## Model

| member | source | states |
|---|---|---|
| Queues.EraseSkippingIffNotAdjacent | Scheduler.cpp:206-212 | for every queue, the scan that erases at i and still advances i removes all copies of an id if and only if no two copies are adjacent |
| Queues.WithoutMovesUp | Scheduler.cpp:206-212 | taking one id out never moves another back, and moves it only if the id was ahead of it |
| Queues.AscendingIsUnique | Scheduler.cpp:51-61 | the order in which the wake-up loop visits ids is the only increasing list of them |
| Machine.DueMeans | Scheduler.cpp:55 | on every deadline a call can store, the wake-up test with its two conversions means: the last quantum of the sleep is here or past, or the deadline overflows an int |
| Machine.InvMeans | Scheduler.h:22-29 | what the invariant says of each thread: ids below the limit, blocked set and queue hold exactly the threads in the matching state, sleepers are live and not running, the last quantum of every sleep is not over and fits an int, one thread runs |
| Machine.WakeIsSound | Scheduler.cpp:47-65 | waking up keeps all containers in agreement and leaves only sleepers whose last quantum is not over in the next quantum and fits an int |
| Machine.BeforeDispatchIsSound | Scheduler.cpp:74-82 | every call of run_next_thread (tick, self-block, self-terminate, sleep) in a state of the invariant finds a non-empty queue whose front is a live thread |
| Machine.StepKeepsInv | Scheduler.cpp:9-34 | every call keeps the invariant: the containers agree, one thread runs, the queue has no duplicates, every deadline is ahead |
| Machine.FirstFree | Scheduler.cpp:140-152 | the result is the smallest id from a bound on that is not in use, or -1 exactly if there is none |
| Machine.RoomIsExact | Scheduler.cpp:74-78 | what a call requires of the counter is exactly that the `int` does not overflow in it |
| Runs.RunIsSteps | uthreads.cpp:8-155 | every run takes one step per call, state by state, and gets the reply of that step |
| Runs.Run | Scheduler.cpp:9-266 | the invariant holds at the end of every run from every state that has it, so at every reachable state |
| Runs.TotalCountsSwitches | Scheduler.cpp:74-78 | over every run the quantum counter grows by exactly the number of dispatches |
| Fairness.SwitchIsFifo | Scheduler.cpp:47-83 | a switch takes the front of the queue, and whoever joins in it joins behind all who were there |
| Fairness.StepKeepsPlace | Scheduler.cpp:206-212 | no call moves a waiting thread back; a switch brings it forward by one, and from the front it runs |
| Fairness.UndisturbedMeans | uthreads.cpp:74-107 | the hypothesis of the waiting theorems, spelled out: the thread runs before any call that blocks or terminates it |
| Fairness.NonePulledMeans | uthreads.cpp:74-107 | the hypothesis of the queue law, spelled out: whoever a call blocks or terminates is not queued at that moment |
| Fairness.BoundedWait | Scheduler.cpp:74-83 | over every run, the thread at index k, unless blocked or terminated first, is dispatched within k+1 switches, and until then its index has dropped by at least one per switch |
| Fairness.NoOvertaking | Scheduler.cpp:29-34 | over every run, nobody behind a waiting thread, or not queued at all, is dispatched before it, whatever is spawned, resumed or woken |
| Fairness.DispatchOrderIsQueueOrder | Scheduler.cpp:74-83 | over every run in which no queued thread is pulled out, the dispatches followed by the final queue begin with the original queue, in order |
| Fairness.QueueIsShort | Thread.h:13 | at most MAX_THREAD_NUM - 1 threads wait at a time |
| Fairness.MainRunsInEveryWindow | uthreads.cpp:98-104 | in every run, every MAX_THREAD_NUM consecutive quanta include one of thread 0 |
| Sleep.SleepTakesHoldIffItFits | Scheduler.cpp:256-266 | sleep(n) called in quantum Q leaves a sleeping entry for quantum Q+n+1 if and only if Q+n fits an int; otherwise the caller runs on or is queued at once |
| Sleep.WakeTestOverflows | Scheduler.cpp:55 | the subtraction in the wake-up test leaves the range of int for exactly one deadline |
| Sleep.DefinedIffOffBoundary | Scheduler.cpp:47-65 | the wake-up tests of a switching call are all defined in C++ if and only if the call is not a sleep with Q+n == INT_MAX |
| Sleep.RunOffBoundaryMeans | Scheduler.cpp:256-258 | off the boundary, spelled out: no thread other than 0 calls sleep(n) in a quantum Q with Q+n == INT_MAX |
| Sleep.RunOffBoundaryIsDefined | Scheduler.cpp:47-65 | a run without such a sleep never leaves an entry whose test is undefined |
| Sleep.OverflowingSleepExample | uthreads.cpp:143-155 | a reachable state in which a sleep of INT_MAX quanta does not sleep at all |
| Sleep.SleeperStaysAsleep | Scheduler.cpp:51-64 | over every run that does not terminate it, a sleeper keeps its entry until its last quantum ends |
| Sleep.SleeperWakesOnTime | Scheduler.cpp:47-83 | the switch that ends a sleeper's last quantum erases its entry; if not blocked, it joins behind all who were queued (or runs, if nobody was), and if blocked it stays idle |
| Sleep.SleepsThroughItsQuanta | uthreads.cpp:133-141 | over every run after sleep(n) in quantum Q that does not terminate the thread, it is neither running nor queued in quanta Q+1 to Q+n, whatever is blocked or resumed |
| Sleep.SleepsInEveryState | uthreads.cpp:133-141 | so it is after every prefix of every such run: while quantum Q+n is not over the thread is idle and keeps its entry |
| Sleep.SleepEndsOnTime | uthreads.cpp:133-141 | after sleep(n) in quantum Q this happens at the switch that ends quantum Q+n: the entry is erased, and the thread joins behind all who were queued if not blocked, and stays idle if blocked |
| Sleep.AwakeRunsSoon | Scheduler.cpp:74-83 | over every run, a thread that is queued or running, and that nobody then blocks or terminates, runs now or in one of the next MAX_THREAD_NUM - 1 quanta |
| Sleep.SleeperRunsSoon | uthreads.cpp:133-141 | over every run, an unblocked sleeper that nobody then blocks or terminates runs in quantum Q+n+1 or in one of the MAX_THREAD_NUM - 1 quanta after it |
| Sleep.FirstResumeQueues | Scheduler.cpp:240-250 | a thread that woke up blocked stays idle over every run until the first resume, which puts it at the end of the queue |
| Sleep.BlockedUntilResumed | uthreads.cpp:90-92 | over every run, a blocked thread stays blocked and idle until resumed or terminated |
| Sleep.BlockResumeLeavesNoTrace | Scheduler.cpp:214-250 | blocking a sleeper and resuming it before its deadline, with any calls on other threads between, gives the same dispatches, the same replies and the same final state as not doing so |
| Sleep.BlockResumeMovesToBack | Scheduler.cpp:214-250 | blocking and resuming a queued thread moves it to the end of the queue and changes nothing else |
| Accounting.RecordKeepsBalance | Scheduler.cpp:74-83 | every call keeps the books balanced: the counter is the number of quanta given out, and the sum of all live and retired counts; each count is the number of dispatches since the thread's own spawn, even if its id is reused |
| Accounting.TerminationsAreRecorded | Scheduler.cpp:180-204 | the record of the retired gets one entry for every successful termination, with the thread's birth, its end and the quanta it had, and no other entry |
| Accounting.QuantaAreConserved | uthreads.cpp:167-175 | the books balance in every reachable state, over the trace that starts with the first quantum of thread 0 |
| Accounting.QuantaFitInInt | uthreads.cpp:200 | the conversion of a count to int in uthread_get_quantums loses nothing |
| Abstraction.ContainersMatchStatuses | Scheduler.h:25-29 | queue, blocked set, sleeping map and running id each hold exactly the threads of the statuses they stand for |
| Abstraction.MeaningIsFaithful | Scheduler.h:22-29 | the statuses, the queue and the counts determine every container: the rest is redundant |
| Abstraction.StepRefines | Scheduler.cpp:180-274 | every call on the containers, the one that ends the process included, is the corresponding call of the status machine |
| Abstraction.RunRefines | Scheduler.cpp:9-266 | every run of the scheduler is, state by state, a run of the status machine, and its replies are the ones the statuses call for |
| Abstraction.AbstractStepIsDeterministic | Scheduler.cpp:9-266 | the status machine allows one outcome per call |
| Abstraction.RepliesAreRight | uthreads.cpp:49-155 | every call returns, switches or exits as the caller's arguments and the statuses demand, and a call that returns -1 changes nothing |
| Allocation.SpawnTakesLeastFreeId | Scheduler.cpp:126-152 | spawn returns the smallest free id, and -1 if and only if 100 threads are live; the table is never larger, so the size check of set_thread never fires |
| Allocation.SpawnStartsClean | uthreads.cpp:36-48 | the new thread is ready at the end of the queue with zero quanta, and no container mentioned its id before |
| Allocation.TerminateForgets | Scheduler.cpp:180-204 | after terminating a thread in any state, no container mentions it and all others are still live |
| Allocation.TerminateUndoesSpawn | Scheduler.cpp:140-204 | terminating a thread just spawned restores the state exactly |
| Allocation.OnlyExitEmptiesTable | uthreads.cpp:74-87 | terminating thread 0, and nothing else, exits and leaves no thread in the table; the queue, the blocked, the sleepers, the running id and the counter stay as they were |
| Allocation.NegativeIdsFail | Scheduler.cpp:154-157 | a call on a negative id returns -1 and changes nothing |
| Allocation.TerminatedIdsMeans | uthreads.cpp:81-86 | an id is among those a run terminates if and only if some call terminates it and does not return -1 |
| Allocation.TerminationsFreeIds | Scheduler.cpp:180-204 | over every run without spawns, the free ids grow by exactly the ids terminated, all of which were live |
| Allocation.SpawnsTakeFreeIdsInOrder | Scheduler.cpp:140-152 | in every run without terminations, the reply of the k-th spawn is the k-th free id in increasing order, and -1 once they are used up |
| Allocation.FreedIdsComeBackInOrder | tests/tests_to_be_ran_separately.cpp:321-340 | from a full table, terminate any threads in any order: in every run that follows without terminations, the replies of the spawns are exactly their ids, smallest first, and then -1 |
| Allocation.FirstSpawns | Scheduler.cpp:140-152 | in every run from the initial state without terminations the spawns return 1 to 99 in order and then -1, whatever is called in between |
| Allocation.FirstHundredSpawns | Thread.h:13 | a hundred spawns after init always run, and return 1, 2, ..., 99 and -1 |
| SchedulerClass.Scheduler.InitScheduler | Scheduler.cpp:94-124 | the main thread runs in quantum 1 and nothing else exists |
| SchedulerClass.Scheduler.AddNewThread | Scheduler.cpp:140-152 | the loop finds the smallest free id, enters a fresh thread under it unless the table is too large, and queues the id if the thread is to be ready; without a free id nothing changes |
| SchedulerClass.Scheduler.RemoveThreadFromReady | Scheduler.cpp:206-212 | the loop ends with the queue that the scan leaves, which is the queue without the id if and only if no two copies were adjacent |
| SchedulerClass.Scheduler.HandleSleepThreads | Scheduler.cpp:47-65 | the two passes erase exactly the due entries and append exactly the due threads in state READY, in increasing id order |
| SchedulerClass.Scheduler.QueueAwakeThreads | Scheduler.cpp:51-61 | the first pass collects exactly the due ids and appends those in state READY to the queue, in increasing id order |
| SchedulerClass.Scheduler.EraseAwakeThreads | Scheduler.cpp:62-64 | the second pass erases exactly the entries of the listed ids |
| SchedulerClass.Scheduler.ReadyThread | Scheduler.cpp:29-34 | the thread is ready, and queued unless it sleeps |
| SchedulerClass.Scheduler.RunNextThread | Scheduler.cpp:74-83 | the front of the queue starts a quantum; requires that there is one and that it is live |
| SchedulerClass.Scheduler.ChangeThread | Scheduler.cpp:9-27 | a timer tick is the tick of the machine |
| SchedulerClass.Scheduler.RemoveThread | Scheduler.cpp:180-204 | termination on the containers is the step of the machine in all four states, every lookup on a live id |
| SchedulerClass.Scheduler.BlockThread | Scheduler.cpp:214-237 | blocking on the containers is the step of the machine |
| SchedulerClass.Scheduler.UnblockThread | Scheduler.cpp:240-250 | resuming on the containers is the step of the machine |
| SchedulerClass.Scheduler.SleepRunningThread | Scheduler.cpp:256-266 | sleeping on the containers is the step of the machine |
| Uthreads.UthreadInit | uthreads.cpp:27-33 | a negative quantum is refused; otherwise the scheduler starts in the initial state |
| Uthreads.CallbackHandler | uthreads.cpp:8-10 | the signal handler is the tick of the machine |
| Uthreads.UthreadSpawn | uthreads.cpp:49-61 | the call has the state and the reply of the machine's spawn |
| Uthreads.UthreadTerminate | uthreads.cpp:74-87 | the call has the state and the reply of the machine's terminate; on thread 0 the table is empty when the process exits |
| Uthreads.UthreadBlock | uthreads.cpp:98-107 | the call has the state and the reply of the machine's block |
| Uthreads.UthreadResume | uthreads.cpp:118-127 | the call has the state and the reply of the machine's resume |
| Uthreads.UthreadSleep | uthreads.cpp:143-155 | the call has the state and the reply of the machine's sleep |
| Uthreads.UthreadGetTotalQuantums | uthreads.cpp:176-182 | the quantum counter, which `QuantaAreConserved` shows to be the number of quanta given out, the current one included |
| Uthreads.UthreadGetQuantums | uthreads.cpp:194-203 | the number of quanta the live thread has had since it was spawned, or -1 if there is no such thread |
| Uthreads.Perform | uthreads.cpp:8-155 | any call or tick on the scheduler object, the one that ends the process included, has the state and the reply of the machine's step |
| Uthreads.Execute | uthreads.cpp:8-155 | any sequence of calls on the scheduler object ends in the state of the machine's run and gets its replies, call by call |

## Left out

- Context switching (`sigsetjmp`, `siglongjmp`, stacks, Thread.cpp): a switch is the change of the running id.
- Timer, signal handler and signal mask calls and their failure exits: a tick may come between any two calls. The two error returns that leave the signal masked (uthreads.cpp:52-54, uthreads.cpp:145-147) therefore have more runs in the model than in the program.
- Error messages, and the process exit itself: `uthread_terminate(0)` replies `Exits`, and no run goes on after it.
- Release of the memory of terminated threads: the code only erases the table entry.
- `uthread_get_tid`, which returns a field.
- The entry point of a thread, beyond whether it is null.
- SchedulerClass.Scheduler.RunNextThread: requires a live thread at the front and a counter that can grow, which the source does not check; every call of it is proved to meet this.
- SchedulerClass.Scheduler.RemoveThread: requires an id other than 0, which the method itself does not refuse; `uthread_terminate` ends the process on 0 before it would call it (uthreads.cpp:76-80).
- SchedulerClass.Scheduler.BlockThread: requires a live id other than 0, which the method itself does not check; `uthread_block` refuses all others before it calls it (uthreads.cpp:100-103).
- SchedulerClass.Scheduler.SleepRunningThread: requires that thread 0 is not running and a positive number of quanta, which the method itself does not check; `uthread_sleep` refuses these before it calls it (uthreads.cpp:145-151).
- SchedulerClass.Scheduler.QueueAwakeThreads: visits the smallest remaining key by a such-that choice, in place of the iterator of `std::map`.
- Accounting.QuantaAreConserved: the trace and the record of retired threads are kept beside the state by an observer; the program has no such record.
