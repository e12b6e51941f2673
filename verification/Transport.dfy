/** The transport: producers that enqueue events and one worker thread that sends them, retries a
    refused one once, and backs off after a failure. Each access to the shared state is one step,
    and any number of producers interleave with the worker. */
module Transport {
  import opened Text
  import opened Numerals
  import opened Http

  /** One call of `sendEvent`. */
  type EventId = nat

  /** An action of the queue: the first try, or the second one with the header of the first. */
  datatype Task =
    | Send(id: EventId, content: string)
    | Retry(id: EventId, content: string, header: string)

  datatype Mode = NoConnection | SendEvents | DropEvents

  /** What comes of a request: a response, the `system_error` that the client throws, or another
      exception that leaves the client, as that of a Content-Length which is no number. */
  datatype Reply = Response(status: string, header: seq<Field>) | Failure | Thrown

  /** The fields of the transport. Times are in nanoseconds. */
  datatype Core = Core(
    tasks: seq<Task>,
    mode: Mode,
    shouldStop: bool,
    clientSet: bool,
    lastConnectionRequestTime: nat,
    retryAfterMilliseconds: nat)

  const RECONNECTION_TIMEOUT_MILLISECONDS: nat := 10000
  const MILLISECONDS_IN_SECOND: nat := 1000
  const NANOSECONDS_IN_MILLISECOND: nat := 1000000
  const UINT64_LIMIT: nat := 0x1_0000_0000_0000_0000

  const FRESH := Core([], NoConnection, false, false, 0, 0)

  // ---------------------------------------------------------------------------------------------
  // What the methods do to the fields

  predicate ReconnectTimeoutReached(core: Core, now: nat) {
    // A negative duration is truncated towards zero, and too short either way.
    now >= core.lastConnectionRequestTime
    && (now - core.lastConnectionRequestTime) / NANOSECONDS_IN_MILLISECOND >= RECONNECTION_TIMEOUT_MILLISECONDS
  }

  function NoConnectionPerformed(core: Core, now: nat): (r: Core) {
    if ReconnectTimeoutReached(core, now) then core.(mode := SendEvents) else core
  }

  function Enqueued(core: Core, task: Task): (r: Core) {
    if core.shouldStop then core else core.(tasks := core.tasks + [task])
  }

  predicate IsRetryAfter(field: Field) { field.0 == "Retry-After" }

  /** The value that the header asks for, starting from `current`: the last field decides, but
      every one must be a number. */
  function RetryAfter(header: seq<Field>, current: nat): (r: Option<nat>)
    decreases |header|
  {
    if header == [] then Some(current)
    else if !IsRetryAfter(header[0]) then RetryAfter(header[1..], current)
    else
      var seconds := StoUL(header[0].1, 10);
      if seconds.None? then None
      else RetryAfter(header[1..], seconds.value * MILLISECONDS_IN_SECOND % UINT64_LIMIT)
  }

  predicate IsOk(reply: Reply) { reply.Response? && reply.status == "200 OK" }
  predicate IsTooMany(reply: Reply) { reply.Response? && reply.status == "429 Too Many Requests" }
  predicate IsRefused(reply: Reply) { reply.Response? && !IsOk(reply) && !IsTooMany(reply) }

  /** An exception that no one catches ends the thread: one that leaves the client, or that of a
      field which asks for a time that is no number. */
  predicate IsFatal(reply: Reply) {
    reply.Thrown? || (IsTooMany(reply) && RetryAfter(reply.header, RECONNECTION_TIMEOUT_MILLISECONDS).None?)
  }

  /** A reply after which the worker sends nothing more. */
  predicate IsLast(reply: Reply) { reply.Thrown? || IsTooMany(reply) }

  /** The fields after `reply` to a request, but for a retry. */
  function Answered(core: Core, reply: Reply, now: nat): (r: Core) {
    if reply.Failure? then core.(mode := NoConnection, lastConnectionRequestTime := now)
    else if IsTooMany(reply) && !IsFatal(reply) then
      core.(mode := DropEvents,
            retryAfterMilliseconds := RetryAfter(reply.header, RECONNECTION_TIMEOUT_MILLISECONDS).value)
    else core
  }

  /** The header asks for no time, for the time in its last field, or for nothing that can be read. */
  lemma {:induction false} RetryAfterIs(header: seq<Field>, current: nat)
    ensures RetryAfter(header, current).None?
            <==> exists k :: 0 <= k < |header| && header[k].0 == "Retry-After" && StoUL(header[k].1, 10).None?
    ensures (forall k :: 0 <= k < |header| ==> header[k].0 != "Retry-After") ==>
              RetryAfter(header, current) == Some(current)
    ensures RetryAfter(header, current).Some? ==>
              forall k :: 0 <= k < |header| && header[k].0 == "Retry-After"
                          && (forall j :: k < j < |header| ==> header[j].0 != "Retry-After") ==>
                RetryAfter(header, current).value
                == StoUL(header[k].1, 10).value * 1000 % 0x1_0000_0000_0000_0000
    decreases |header|
  {
    if header != [] {
      var rest := header[1..];
      assert forall k :: 0 <= k < |rest| ==> rest[k] == header[k + 1];
      if !IsRetryAfter(header[0]) {
        RetryAfterIs(rest, current);
      } else if StoUL(header[0].1, 10).Some? {
        RetryAfterIs(rest, StoUL(header[0].1, 10).value * MILLISECONDS_IN_SECOND % UINT64_LIMIT);
      }
    }
  }

  /** What the replies are, by their status. */
  lemma RepliesAre(reply: Reply)
    ensures IsOk(reply) <==> reply.Response? && reply.status == "200 OK"
    ensures IsTooMany(reply) <==> reply.Response? && reply.status == "429 Too Many Requests"
    ensures IsRefused(reply)
            <==> reply.Response? && reply.status != "200 OK" && reply.status != "429 Too Many Requests"
    ensures IsFatal(reply)
            <==> reply.Thrown?
                 || (reply.Response? && reply.status == "429 Too Many Requests"
                     && exists k :: 0 <= k < |reply.header| && reply.header[k].0 == "Retry-After"
                                    && StoUL(reply.header[k].1, 10).None?)
  {
    if reply.Response? {
      RetryAfterIs(reply.header, RECONNECTION_TIMEOUT_MILLISECONDS);
    }
  }

  /** A transport without a connection sends again exactly when ten seconds have passed since the last
      failure, and one that has never failed since the epoch. */
  lemma SendsAgainIff(core: Core, now: nat)
    requires core.mode == NoConnection
    ensures NoConnectionPerformed(core, now).mode == SendEvents
            <==> now >= core.lastConnectionRequestTime + 10_000_000_000
    ensures NoConnectionPerformed(core, now) == core || NoConnectionPerformed(core, now) == core.(mode := SendEvents)
  {
  }

  // ---------------------------------------------------------------------------------------------
  // The threads

  /** Where the worker stands. `draining` tells the second loop of `run` from the first. */
  datatype Worker =
    | Running
    | Draining
    | Performing(draining: bool)
    | Popping(draining: bool)
    | Executing(draining: bool, task: Task)
    | Checking(draining: bool, task: Task)
    | Pushing(draining: bool, task: Task)
    | Exited
    | Terminated
    | AssertionFailed

  /** One request that was made, with the clock when it started and when it ended. */
  datatype Post = Post(id: EventId, content: string, header: string, retrying: bool, reply: Reply,
                       start: nat, end: nat)

  /** `producers` are the calls of `sendEvent` that have found the transport not stopped and have
      not pushed yet; `accepted` are all that ever found it so. The last three are logs. */
  datatype State = State(
    core: Core,
    worker: Worker,
    clock: nat,
    producers: map<EventId, string>,
    accepted: map<EventId, string>,
    pushed: seq<Task>,
    popped: seq<Task>,
    posts: seq<Post>)

  /** The steps: `addActionToQueue` of a producer checks whether to stop; it pushes; the client is
      set; `stop` is called; the worker goes on, with what the clock and the server say. */
  datatype Step =
    | Check(id: EventId, content: string)
    | Push(id: EventId)
    | SetClient
    | Stop
    | Work(start: nat, now: nat, header: string, reply: Reply)

  /** The client may be set before the thread starts or later. */
  ghost predicate IsInitial(s: State) {
    s == State(FRESH.(clientSet := s.core.clientSet), Running, s.clock, map[], map[], [], [], [])
  }

  predicate Enabled(s: State, step: Step) {
    match step
    case Check(id, _) => id !in s.accepted
    case Push(id) => id in s.producers
    case Work(start, now, _, _) =>
      s.clock <= start <= now && !s.worker.Exited? && !s.worker.Terminated? && !s.worker.AssertionFailed?
    case _ => true
  }

  /** The test of the loop that the worker is in. */
  function Loop(draining: bool): (w: Worker) { if draining then Draining else Running }

  function PushedTo(s: State, task: Task): (r: State) {
    s.(core := s.core.(tasks := s.core.tasks + [task]), pushed := s.pushed + [task])
  }

  function RetryOf(task: Task, header: string): (r: Task) { Retry(task.id, task.content, header) }

  /** The action runs: a request is made, if there is a client. */
  function Executed(s: State, step: Step): (r: State)
    requires s.worker.Executing? && step.Work?
  {
    var (d, task) := (s.worker.draining, s.worker.task);
    if !s.core.clientSet then s.(worker := Loop(d))
    else
      var header := if task.Retry? then task.header else step.header;
      s.(core := Answered(s.core, step.reply, step.now),
         posts := s.posts + [Post(task.id, task.content, header, task.Retry?, step.reply, step.start, step.now)],
         worker := if IsFatal(step.reply) then Terminated
                   else if IsRefused(step.reply) && task.Send? then Checking(d, RetryOf(task, header))
                   else Loop(d))
  }

  function Performed(s: State, draining: bool, now: nat): (r: State) {
    match s.core.mode
    case NoConnection => s.(core := NoConnectionPerformed(s.core, now), worker := Loop(draining))
    case SendEvents => s.(worker := if s.core.tasks == [] then Loop(draining) else Popping(draining))
    case DropEvents => s.(worker := Loop(draining))
  }

  function Worked(s: State, step: Step): (r: State)
    requires step.Work?
  {
    match s.worker
    case Running => s.(worker := if s.core.shouldStop then Draining else Performing(false))
    case Draining => s.(worker := if s.core.tasks == [] then Exited else Performing(true))
    case Performing(d) => Performed(s, d, step.now)
    case Popping(d) =>
      if s.core.tasks == [] then s.(worker := AssertionFailed)
      else
        s.(core := s.core.(tasks := s.core.tasks[1..]),
           popped := s.popped + [s.core.tasks[0]],
           worker := Executing(d, s.core.tasks[0]))
    case Executing(_, _) => Executed(s, step)
    case Checking(d, task) => s.(worker := if s.core.shouldStop then Loop(d) else Pushing(d, task))
    case Pushing(d, task) => PushedTo(s, task).(worker := Loop(d))
    case _ => s
  }

  function Apply(s: State, step: Step): (r: State)
    requires Enabled(s, step)
  {
    match step
    case Check(id, content) =>
      if s.core.shouldStop then s
      else s.(producers := s.producers[id := content], accepted := s.accepted[id := content])
    case Push(id) => PushedTo(s, Send(id, s.producers[id])).(producers := s.producers - {id})
    case SetClient => s.(core := s.core.(clientSet := true))
    case Stop => s.(core := s.core.(shouldStop := true))
    case Work(_, now, _, _) => Worked(s, step).(clock := now)
  }

  predicate IsRun(s: State, steps: seq<Step>)
    decreases |steps|
  {
    steps == [] || (Enabled(s, steps[0]) && IsRun(Apply(s, steps[0]), steps[1..]))
  }

  function After(s: State, steps: seq<Step>): (r: State)
    requires IsRun(s, steps)
    decreases |steps|
  {
    if steps == [] then s else After(Apply(s, steps[0]), steps[1..])
  }

  // ---------------------------------------------------------------------------------------------
  // The queue

  /** What was pushed was popped, in the same order, or is in the queue; and the worker that is
      about to pop finds something. */
  ghost predicate Queued(s: State) {
    && s.pushed == s.popped + s.core.tasks
    && !s.worker.AssertionFailed?
    && (s.worker == Performing(true) || s.worker.Popping? ==> s.core.tasks != [])
  }

  lemma WorkQueued(s: State, step: Step)
    requires Queued(s) && Enabled(s, step) && step.Work?
    ensures Queued(Apply(s, step))
  {
    if s.worker.Popping? {
      assert s.core.tasks == [s.core.tasks[0]] + s.core.tasks[1..];
    } else if s.worker.Executing? {
      assert Apply(s, step).core.tasks == s.core.tasks;
    }
  }

  lemma StepQueued(s: State, step: Step)
    requires Queued(s) && Enabled(s, step)
    ensures Queued(Apply(s, step))
  {
    if step.Work? {
      WorkQueued(s, step);
    }
  }

  // ---------------------------------------------------------------------------------------------
  // The clock

  ghost predicate Timely(s: State) {
    && s.core.lastConnectionRequestTime <= s.clock
    && (s.core.mode == SendEvents ==> ReconnectTimeoutReached(s.core, s.clock))
    && (s.worker.Popping? || s.worker.Executing? ==> s.core.mode == SendEvents)
    && (forall i :: 0 <= i < |s.posts| && s.posts[i].reply.Failure? ==>
          s.posts[i].end <= s.core.lastConnectionRequestTime)
    && (forall i, j :: 0 <= i < j < |s.posts| && s.posts[i].reply.Failure? ==> BacksOff(s.posts[i], s.posts[j]))
    && (forall i :: 0 <= i < |s.posts| && IsLast(s.posts[i].reply) ==>
          i == |s.posts| - 1 && (s.core.mode == DropEvents || s.worker.Terminated?))
  }

  /** `later` starts no sooner than the time-out after the end of `failed`. */
  predicate BacksOff(failed: Post, later: Post) {
    later.start >= failed.end + RECONNECTION_TIMEOUT_MILLISECONDS * NANOSECONDS_IN_MILLISECOND
  }

  lemma TimeoutIs(core: Core, now: nat)
    ensures ReconnectTimeoutReached(core, now)
            <==> now >= core.lastConnectionRequestTime + RECONNECTION_TIMEOUT_MILLISECONDS * NANOSECONDS_IN_MILLISECOND
  {
  }

  lemma ExecutedTimely(s: State, step: Step)
    requires Timely(s) && Enabled(s, step) && step.Work? && s.worker.Executing?
    ensures Timely(Apply(s, step))
  {
    TimeoutIs(s.core, s.clock);
    TimeoutIs(s.core, step.now);
  }

  lemma StepTimely(s: State, step: Step)
    requires Timely(s) && Enabled(s, step)
    ensures Timely(Apply(s, step))
  {
    if step.Work? {
      TimeoutIs(s.core, s.clock);
      TimeoutIs(s.core, step.now);
      if s.worker.Executing? {
        ExecutedTimely(s, step);
      }
    }
  }

  // ---------------------------------------------------------------------------------------------
  // The requests for one event

  function PostsOf(posts: seq<Post>, id: EventId): (own: seq<Post>)
    ensures forall k :: 0 <= k < |own| ==> own[k].id == id
  {
    if posts == [] then []
    else
      var before := PostsOf(posts[..|posts| - 1], id);
      if posts[|posts| - 1].id == id then before + [posts[|posts| - 1]] else before
  }

  lemma PostsOfNext(posts: seq<Post>, post: Post, id: EventId)
    ensures PostsOf(posts + [post], id) == PostsOf(posts, id) + (if post.id == id then [post] else [])
  {
    assert (posts + [post])[..|posts|] == posts;
  }

  /** What the worker has taken or is about to push. */
  function Held(s: State): (task: Option<Task>) {
    if s.worker.Executing? || s.worker.Checking? || s.worker.Pushing? then Some(s.worker.task) else None
  }

  /** The requests made for an event: none, or one, or a second one after a refusal, which repeats
      the first. */
  predicate WellPosted(own: seq<Post>, content: string) {
    && |own| <= 2
    && (|own| > 0 ==> !own[0].retrying && own[0].content == content)
    && (|own| == 2 ==> IsRefused(own[0].reply) && own[1] == own[0].(retrying := true, reply := own[1].reply,
                                                                   start := own[1].start, end := own[1].end))
  }

  /** An action stands for what is still to be done for its event. */
  predicate Stands(posts: seq<Post>, accepted: map<EventId, string>, task: Task) {
    var own := PostsOf(posts, task.id);
    && task.id in accepted && task.content == accepted[task.id]
    && match task
       case Send(_, _) => own == []
       case Retry(_, _, header) => |own| == 1 && IsRefused(own[0].reply) && own[0].header == header
  }

  predicate NotQueued(tasks: seq<Task>, id: EventId) {
    forall i :: 0 <= i < |tasks| ==> tasks[i].id != id
  }

  /** Each event is in one place at most: in the queue, with the worker or with a producer. */
  ghost predicate Once(tasks: seq<Task>, held: Option<Task>, producers: set<EventId>) {
    && (forall i, j :: 0 <= i < j < |tasks| ==> tasks[i].id != tasks[j].id)
    && (held.Some? ==> NotQueued(tasks, held.value.id) && held.value.id !in producers)
    && (forall id :: id in producers ==> NotQueued(tasks, id))
  }

  /** Wherever an event is, it stands for what is still to be done. */
  ghost predicate AllStand(tasks: seq<Task>, held: Option<Task>, producers: map<EventId, string>,
                           posts: seq<Post>, accepted: map<EventId, string>) {
    && (forall i :: 0 <= i < |tasks| ==> Stands(posts, accepted, tasks[i]))
    && (held.Some? ==> Stands(posts, accepted, held.value))
    && (forall id :: id in producers ==> Stands(posts, accepted, Send(id, producers[id])))
  }

  ghost predicate AllWellPosted(posts: seq<Post>, accepted: map<EventId, string>) {
    forall id :: if id in accepted then WellPosted(PostsOf(posts, id), accepted[id]) else PostsOf(posts, id) == []
  }

  ghost predicate Accounted(s: State) {
    && Once(s.core.tasks, Held(s), s.producers.Keys)
    && AllStand(s.core.tasks, Held(s), s.producers, s.posts, s.accepted)
    && AllWellPosted(s.posts, s.accepted)
    && (s.worker.Checking? || s.worker.Pushing? ==> s.worker.task.Retry?)
  }

  lemma PushOnce(tasks: seq<Task>, held: Option<Task>, producers: set<EventId>, task: Task)
    requires Once(tasks, held, producers) && NotQueued(tasks, task.id)
    requires task.id !in producers && (held.Some? ==> held.value.id != task.id)
    ensures Once(tasks + [task], held, producers)
  {
    assert forall id :: NotQueued(tasks, id) && id != task.id ==> NotQueued(tasks + [task], id);
  }

  lemma PopOnce(tasks: seq<Task>, producers: set<EventId>)
    requires Once(tasks, None, producers) && tasks != []
    ensures Once(tasks[1..], Some(tasks[0]), producers)
  {
    assert forall id :: NotQueued(tasks, id) ==> NotQueued(tasks[1..], id);
    assert forall id :: id in producers ==> NotQueued(tasks, id) && tasks[0].id != id;
  }

  lemma PushAccounted(s: State, id: EventId)
    requires Accounted(s) && id in s.producers
    ensures Accounted(Apply(s, Push(id)))
  {
    assert Once(s.core.tasks, Held(s), s.producers.Keys - {id});
    PushOnce(s.core.tasks, Held(s), s.producers.Keys - {id}, Send(id, s.producers[id]));
    assert (s.producers - {id}).Keys == s.producers.Keys - {id};
  }

  lemma CheckAccounted(s: State, id: EventId, content: string)
    requires Accounted(s) && id !in s.accepted
    ensures Accounted(Apply(s, Check(id, content)))
  {
    var t := Apply(s, Check(id, content));
    assert forall task :: Stands(s.posts, s.accepted, task) ==> Stands(s.posts, t.accepted, task);
    if !s.core.shouldStop {
      assert PostsOf(s.posts, id) == [];
      forall i | 0 <= i < |s.core.tasks| ensures s.core.tasks[i].id != id {
        assert Stands(s.posts, s.accepted, s.core.tasks[i]);
      }
      assert NotQueued(s.core.tasks, id);
      assert t.producers.Keys == s.producers.Keys + {id};
    }
  }

  lemma PopAccounted(s: State, step: Step)
    requires Accounted(s) && Enabled(s, step) && step.Work? && s.worker.Popping? && s.core.tasks != []
    ensures Accounted(Apply(s, step))
  {
    PopOnce(s.core.tasks, s.producers.Keys);
  }

  lemma RetryAccounted(s: State, step: Step)
    requires Accounted(s) && Enabled(s, step) && step.Work? && s.worker.Pushing?
    ensures Accounted(Apply(s, step))
  {
    assert Once(s.core.tasks, None, s.producers.Keys);
    PushOnce(s.core.tasks, None, s.producers.Keys, s.worker.task);
  }

  /** A request for one event says nothing of the others. */
  lemma PostStands(posts: seq<Post>, accepted: map<EventId, string>, post: Post, task: Task)
    requires Stands(posts, accepted, task) && task.id != post.id
    ensures Stands(posts + [post], accepted, task)
  {
    PostsOfNext(posts, post, task.id);
  }

  lemma PostWellPosted(posts: seq<Post>, accepted: map<EventId, string>, post: Post, task: Task)
    requires AllWellPosted(posts, accepted) && Stands(posts, accepted, task)
    requires post.id == task.id && post.content == task.content && post.retrying == task.Retry?
    requires task.Retry? ==> post.header == task.header
    ensures AllWellPosted(posts + [post], accepted)
    ensures task.Send? && IsRefused(post.reply) ==> Stands(posts + [post], accepted, RetryOf(task, post.header))
  {
    forall id
      ensures if id in accepted then WellPosted(PostsOf(posts + [post], id), accepted[id])
              else PostsOf(posts + [post], id) == []
    {
      PostsOfNext(posts, post, id);
    }
    PostsOfNext(posts, post, task.id);
  }

  lemma PostLeavesOthers(tasks: seq<Task>, producers: map<EventId, string>, posts: seq<Post>,
                         accepted: map<EventId, string>, post: Post)
    requires AllStand(tasks, None, producers, posts, accepted)
    requires NotQueued(tasks, post.id) && post.id !in producers
    ensures AllStand(tasks, None, producers, posts + [post], accepted)
  {
    forall i | 0 <= i < |tasks| ensures Stands(posts + [post], accepted, tasks[i]) {
      PostStands(posts, accepted, post, tasks[i]);
    }
    forall id | id in producers ensures Stands(posts + [post], accepted, Send(id, producers[id])) {
      PostStands(posts, accepted, post, Send(id, producers[id]));
    }
  }

  lemma ExecutedAccounted(s: State, step: Step)
    requires Accounted(s) && Enabled(s, step) && step.Work? && s.worker.Executing?
    ensures Accounted(Apply(s, step))
  {
    if s.core.clientSet {
      var post := Apply(s, step).posts[|s.posts|];
      PostWellPosted(s.posts, s.accepted, post, s.worker.task);
      PostLeavesOthers(s.core.tasks, s.producers, s.posts, s.accepted, post);
    }
  }

  /** The other steps neither move an event nor make a request. */
  predicate SameEvents(s: State, t: State) {
    && t.core.tasks == s.core.tasks && t.posts == s.posts && t.accepted == s.accepted && t.producers == s.producers
    && (s.core.clientSet ==> t.core.clientSet) && (s.core.shouldStop ==> t.core.shouldStop)
    && Held(t) == Held(s) && (Held(s).Some? ==> t.worker == s.worker || (s.worker.Checking? && t.worker.Pushing?))
  }

  lemma SameAccounted(s: State, t: State)
    requires Accounted(s) && SameEvents(s, t)
    ensures Accounted(t)
  {
  }

  lemma OtherStep(s: State, step: Step)
    requires Enabled(s, step) && !step.Check? && !step.Push?
    requires step.Work? ==> !s.worker.Popping? && !s.worker.Executing? && !s.worker.Pushing?
    requires step.Work? && s.worker.Checking? ==> !s.core.shouldStop
    ensures SameEvents(s, Apply(s, step))
  {
  }

  lemma GivenUpAccounted(s: State, step: Step)
    requires Accounted(s) && Enabled(s, step) && step.Work? && s.worker.Checking? && s.core.shouldStop
    ensures Accounted(Apply(s, step))
  {
  }

  lemma StepAccounted(s: State, step: Step)
    requires Queued(s) && Accounted(s) && Enabled(s, step)
    ensures Accounted(Apply(s, step))
  {
    if step.Check? {
      CheckAccounted(s, step.id, step.content);
    } else if step.Push? {
      PushAccounted(s, step.id);
    } else if step.Work? && s.worker.Popping? {
      PopAccounted(s, step);
    } else if step.Work? && s.worker.Executing? {
      ExecutedAccounted(s, step);
    } else if step.Work? && s.worker.Pushing? {
      RetryAccounted(s, step);
    } else if step.Work? && s.worker.Checking? && s.core.shouldStop {
      GivenUpAccounted(s, step);
    } else {
      OtherStep(s, step);
      SameAccounted(s, Apply(s, step));
    }
  }

  // ---------------------------------------------------------------------------------------------
  // What holds of all runs

  ghost predicate Safe(s: State) {
    Queued(s) && Timely(s) && Accounted(s)
  }

  lemma StepIsSafe(s: State, step: Step)
    requires Safe(s) && Enabled(s, step)
    ensures Safe(Apply(s, step))
  {
    StepQueued(s, step);
    StepTimely(s, step);
    StepAccounted(s, step);
  }

  lemma {:induction false} RunIsSafe(s: State, steps: seq<Step>)
    requires Safe(s) && IsRun(s, steps)
    ensures Safe(After(s, steps))
    decreases |steps|
  {
    if steps != [] {
      StepIsSafe(s, steps[0]);
      RunIsSafe(Apply(s, steps[0]), steps[1..]);
    }
  }

  /** In every reachable state, what was pushed is what was popped followed by what is queued, in
      the order of the pushes, and popping never finds the queue empty. An event is requested at
      most twice: first with its content as it was accepted, and a second time, with the same
      content and header, only after a response that is neither 200 nor 429. */
  lemma Conservation(initial: State, steps: seq<Step>, id: EventId)
    requires IsInitial(initial) && IsRun(initial, steps)
    ensures var s := After(initial, steps);
            var own := PostsOf(s.posts, id);
            && s.pushed == s.popped + s.core.tasks
            && s.worker != AssertionFailed
            && (own != [] ==> id in s.accepted && own[0].content == s.accepted[id] && !own[0].retrying)
            && |own| <= 2
            && (|own| == 2 ==> own[0].reply.Response? && own[0].reply.status != "200 OK"
                               && own[0].reply.status != "429 Too Many Requests"
                               && own[1].retrying && own[1].content == own[0].content && own[1].header == own[0].header)
  {
    RunIsSafe(initial, steps);
    assert AllWellPosted(After(initial, steps).posts, After(initial, steps).accepted);
  }

  /** In every reachable state, with a clock that never goes back: after a request that failed none
      starts for ten seconds, and after a response 429 or an uncaught exception none starts at all. */
  lemma BackOff(initial: State, steps: seq<Step>, i: nat, j: nat)
    requires IsInitial(initial) && IsRun(initial, steps)
    requires i < j < |After(initial, steps).posts|
    ensures var posts := After(initial, steps).posts;
            && !(posts[i].reply.Response? && posts[i].reply.status == "429 Too Many Requests")
            && !posts[i].reply.Thrown?
            && (posts[i].reply.Failure? ==> posts[j].start >= posts[i].end + 10_000 * 1_000_000)
  {
    RunIsSafe(initial, steps);
    RepliesAre(After(initial, steps).posts[i].reply);
    assert BacksOff(After(initial, steps).posts[i], After(initial, steps).posts[j])
           || !After(initial, steps).posts[i].reply.Failure?;
  }

  // ---------------------------------------------------------------------------------------------
  // Nothing is lost

  /** The event is somewhere on its way. */
  ghost predicate Pending(s: State, id: EventId) {
    id in s.producers || !NotQueued(s.core.tasks, id) || (Held(s).Some? && Held(s).value.id == id)
  }

  ghost predicate Complete(s: State) {
    && s.core.clientSet
    && forall id :: id in s.accepted ==> DoneOrPending(s, id)
  }

  /** Unless it is still on its way, the event was requested, and again after a refusal, but for a
      transport that was stopped. */
  ghost predicate DoneOrPending(s: State, id: EventId) {
    var own := PostsOf(s.posts, id);
    Pending(s, id) || (own != [] && (|own| == 1 && IsRefused(own[0].reply) ==> s.core.shouldStop))
  }

  lemma PushPending(tasks: seq<Task>, task: Task)
    ensures !NotQueued(tasks + [task], task.id)
    ensures forall id :: !NotQueued(tasks, id) ==> !NotQueued(tasks + [task], id)
  {
    assert (tasks + [task])[|tasks|] == task;
    forall id | !NotQueued(tasks, id) ensures !NotQueued(tasks + [task], id) {
      var i :| 0 <= i < |tasks| && tasks[i].id == id;
      assert (tasks + [task])[i] == tasks[i];
    }
  }

  lemma PopPending(tasks: seq<Task>, id: EventId)
    requires tasks != [] && !NotQueued(tasks, id)
    ensures id == tasks[0].id || !NotQueued(tasks[1..], id)
  {
    var i :| 0 <= i < |tasks| && tasks[i].id == id;
    if i > 0 {
      assert tasks[1..][i - 1] == tasks[i];
    }
  }

  lemma ExecutedComplete(s: State, step: Step)
    requires Safe(s) && Complete(s) && Enabled(s, step) && step.Work? && s.worker.Executing?
    ensures Complete(Apply(s, step))
  {
    var t := Apply(s, step);
    var post := t.posts[|s.posts|];
    assert Stands(s.posts, s.accepted, s.worker.task);
    forall id | id in t.accepted ensures DoneOrPending(t, id) {
      assert DoneOrPending(s, id);
      PostsOfNext(s.posts, post, id);
      assert id != s.worker.task.id && Pending(s, id) ==> Pending(t, id);
    }
  }

  lemma PushComplete(s: State, p: EventId)
    requires Complete(s) && p in s.producers
    ensures Complete(Apply(s, Push(p)))
  {
    var t := Apply(s, Push(p));
    PushPending(s.core.tasks, Send(p, s.producers[p]));
    forall id | id in t.accepted ensures DoneOrPending(t, id) {
      assert DoneOrPending(s, id);
      assert Pending(s, id) ==> Pending(t, id);
    }
  }

  lemma RetryComplete(s: State, step: Step)
    requires Complete(s) && Enabled(s, step) && step.Work? && s.worker.Pushing?
    ensures Complete(Apply(s, step))
  {
    var t := Apply(s, step);
    PushPending(s.core.tasks, s.worker.task);
    forall id | id in t.accepted ensures DoneOrPending(t, id) {
      assert DoneOrPending(s, id);
      assert Pending(s, id) ==> Pending(t, id);
    }
  }

  lemma PopComplete(s: State, step: Step)
    requires Complete(s) && Enabled(s, step) && step.Work? && s.worker.Popping? && s.core.tasks != []
    ensures Complete(Apply(s, step))
  {
    var t := Apply(s, step);
    forall id | id in t.accepted ensures DoneOrPending(t, id) {
      assert DoneOrPending(s, id);
      if !NotQueued(s.core.tasks, id) {
        PopPending(s.core.tasks, id);
      }
      assert Pending(s, id) ==> Pending(t, id);
    }
  }

  lemma CheckingComplete(s: State, step: Step)
    requires Complete(s) && Accounted(s) && Enabled(s, step) && step.Work? && s.worker.Checking?
    ensures Complete(Apply(s, step))
  {
    var t := Apply(s, step);
    forall id | id in t.accepted ensures DoneOrPending(t, id) {
      assert DoneOrPending(s, id);
      assert Pending(s, id) && id != s.worker.task.id ==> Pending(t, id);
      assert !s.core.shouldStop && Pending(s, id) ==> Pending(t, id);
    }
  }

  lemma StepComplete(s: State, step: Step)
    requires Safe(s) && Complete(s) && Enabled(s, step)
    ensures Complete(Apply(s, step))
  {
    if step.Push? {
      PushComplete(s, step.id);
    } else if step.Work? && s.worker.Pushing? {
      RetryComplete(s, step);
    } else if step.Work? && s.worker.Popping? {
      PopComplete(s, step);
    } else if step.Work? && s.worker.Checking? {
      CheckingComplete(s, step);
    } else if step.Work? && s.worker.Executing? {
      ExecutedComplete(s, step);
    } else if step.Check? {
      CheckComplete(s, step.id, step.content);
    } else {
      OtherStep(s, step);
      SameComplete(s, Apply(s, step));
    }
  }

  lemma SameComplete(s: State, t: State)
    requires Complete(s) && SameEvents(s, t)
    ensures Complete(t)
  {
    forall id | id in t.accepted ensures DoneOrPending(t, id) {
      assert DoneOrPending(s, id);
      assert Pending(s, id) ==> Pending(t, id);
    }
  }

  lemma CheckComplete(s: State, id: EventId, content: string)
    requires Complete(s) && id !in s.accepted
    ensures Complete(Apply(s, Check(id, content)))
  {
    var t := Apply(s, Check(id, content));
    forall e | e in t.accepted ensures DoneOrPending(t, e) {
      assert e in s.accepted ==> DoneOrPending(s, e);
      assert e in s.accepted && Pending(s, e) ==> Pending(t, e);
    }
  }

  lemma {:induction false} RunIsComplete(s: State, steps: seq<Step>)
    requires Safe(s) && Complete(s) && IsRun(s, steps)
    ensures Complete(After(s, steps))
    decreases |steps|
  {
    if steps != [] {
      StepIsSafe(s, steps[0]);
      StepComplete(s, steps[0]);
      RunIsComplete(Apply(s, steps[0]), steps[1..]);
    }
  }

  /** In every reachable state, with the client set from the start, every accepted event is with a
      producer, in the queue or with the worker, or it was requested; and if its only reply was a
      refusal and it is nowhere any more, the transport was stopped before the retry. */
  lemma NothingForgotten(initial: State, steps: seq<Step>, id: EventId)
    requires IsInitial(initial) && initial.core.clientSet && IsRun(initial, steps)
    requires id in After(initial, steps).accepted
    ensures var s := After(initial, steps);
            var own := PostsOf(s.posts, id);
            || id in s.producers
            || (exists i :: 0 <= i < |s.core.tasks| && s.core.tasks[i].id == id)
            || (Held(s).Some? && Held(s).value.id == id)
            || (own != [] && ((|own| == 1 && own[0].reply.Response? && own[0].reply.status != "200 OK"
                               && own[0].reply.status != "429 Too Many Requests") ==> s.core.shouldStop))
  {
    var s := After(initial, steps);
    RunIsSafe(initial, steps);
    RunIsComplete(initial, steps);
    assert DoneOrPending(s, id);
    if PostsOf(s.posts, id) != [] {
      RepliesAre(PostsOf(s.posts, id)[0].reply);
    }
  }

  /** And one that is on its way was not requested yet, or once, with a response neither 200 nor 429:
      no other reply is followed by a retry. */
  lemma OnItsWay(initial: State, steps: seq<Step>, id: EventId)
    requires IsInitial(initial) && IsRun(initial, steps)
    requires var s := After(initial, steps);
             || id in s.producers
             || (exists i :: 0 <= i < |s.core.tasks| && s.core.tasks[i].id == id)
             || (Held(s).Some? && Held(s).value.id == id)
    ensures var own := PostsOf(After(initial, steps).posts, id);
            own != [] ==> |own| == 1 && own[0].reply.Response? && own[0].reply.status != "200 OK"
                          && own[0].reply.status != "429 Too Many Requests"
  {
    var s := After(initial, steps);
    var own := PostsOf(s.posts, id);
    RunIsSafe(initial, steps);
    if id in s.producers {
      assert Stands(s.posts, s.accepted, Send(id, s.producers[id]));
    } else if i :| 0 <= i < |s.core.tasks| && s.core.tasks[i].id == id {
      assert Stands(s.posts, s.accepted, s.core.tasks[i]);
    } else {
      assert Stands(s.posts, s.accepted, Held(s).value);
    }
    if own != [] {
      RepliesAre(own[0].reply);
    }
  }

  /** What one request does, by what comes of it: the fields, and where the worker goes on. */
  lemma AnswersAre(s: State, step: Step)
    requires s.worker.Executing? && s.core.clientSet && step.Work? && Enabled(s, step)
    ensures var t, task, loop := Apply(s, step), s.worker.task, if s.worker.draining then Draining else Running;
            var header := if task.Retry? then task.header else step.header;
            var unreadable := step.reply.Response?
                              && exists k :: 0 <= k < |step.reply.header| && step.reply.header[k].0 == "Retry-After"
                                             && StoUL(step.reply.header[k].1, 10).None?;
            && t.posts == s.posts + [Post(task.id, task.content, header, task.Retry?, step.reply, step.start, step.now)]
            && match step.reply
               case Failure =>
                 t.core == s.core.(mode := NoConnection, lastConnectionRequestTime := step.now) && t.worker == loop
               case Thrown => t.core == s.core && t.worker == Terminated
               case Response(status, _) =>
                 if status == "200 OK" then t.core == s.core && t.worker == loop
                 else if status == "429 Too Many Requests" then
                   if unreadable then t.worker == Terminated
                   else t.worker == loop && RetryAfter(step.reply.header, 10_000).Some?
                        && t.core == s.core.(mode := DropEvents,
                                             retryAfterMilliseconds := RetryAfter(step.reply.header, 10_000).value)
                 else
                   t.core == s.core
                   && t.worker == if task.Send? then Checking(s.worker.draining, Retry(task.id, task.content, header))
                                  else loop
  {
    RepliesAre(step.reply);
  }

  ghost predicate DropsRightly(s: State) {
    s.core.mode == DropEvents
    <==> exists i :: 0 <= i < |s.posts| && AsksToWait(s.posts[i])
  }

  predicate AsksToWait(post: Post) {
    && post.reply.Response? && post.reply.status == "429 Too Many Requests"
    && forall k :: 0 <= k < |post.reply.header| && post.reply.header[k].0 == "Retry-After" ==>
         StoUL(post.reply.header[k].1, 10).Some?
  }

  lemma AnsweredDrops(core: Core, post: Post, now: nat)
    requires core.mode == SendEvents
    ensures Answered(core, post.reply, now).mode == DropEvents <==> AsksToWait(post)
  {
    RepliesAre(post.reply);
  }

  lemma ModeAfter(s: State, step: Step)
    requires s.worker.Executing? && s.core.clientSet && s.core.mode == SendEvents && step.Work? && Enabled(s, step)
    ensures var t := Apply(s, step);
            |t.posts| == |s.posts| + 1 && t.posts[..|s.posts|] == s.posts
            && (t.core.mode == DropEvents <==> AsksToWait(t.posts[|s.posts|]))
  {
    var t := Apply(s, step);
    AnsweredDrops(s.core, t.posts[|s.posts|], step.now);
  }

  lemma ExecutedDrops(s: State, step: Step)
    requires Timely(s) && DropsRightly(s) && Enabled(s, step) && step.Work? && s.worker.Executing?
    ensures DropsRightly(Apply(s, step))
  {
    if s.core.clientSet {
      var t := Apply(s, step);
      ModeAfter(s, step);
      assert forall i :: 0 <= i < |s.posts| ==> t.posts[i] == t.posts[..|s.posts|][i];
    }
  }

  lemma StepDrops(s: State, step: Step)
    requires Timely(s) && DropsRightly(s) && Enabled(s, step)
    ensures DropsRightly(Apply(s, step))
  {
    if step.Work? && s.worker.Executing? {
      ExecutedDrops(s, step);
    } else {
      assert Apply(s, step).posts == s.posts;
    }
  }

  lemma {:induction false} RunDrops(s: State, steps: seq<Step>)
    requires Safe(s) && DropsRightly(s) && IsRun(s, steps)
    ensures DropsRightly(After(s, steps))
    decreases |steps|
  {
    if steps != [] {
      StepIsSafe(s, steps[0]);
      StepDrops(s, steps[0]);
      RunDrops(Apply(s, steps[0]), steps[1..]);
    }
  }

  /** In every run events are dropped exactly if a response 429 has come that asks for a time which can
      be read, or for none. */
  lemma DropsIff(initial: State, steps: seq<Step>)
    requires IsInitial(initial) && IsRun(initial, steps)
    ensures var s := After(initial, steps);
            s.core.mode == DropEvents
            <==> exists i :: 0 <= i < |s.posts| && s.posts[i].reply.Response?
                             && s.posts[i].reply.status == "429 Too Many Requests"
                             && forall k :: 0 <= k < |s.posts[i].reply.header|
                                            && s.posts[i].reply.header[k].0 == "Retry-After" ==>
                                  StoUL(s.posts[i].reply.header[k].1, 10).Some?
  {
    RunDrops(initial, steps);
    var s := After(initial, steps);
    assert forall i :: 0 <= i < |s.posts| ==> (AsksToWait(s.posts[i]) <==> AsksToWait(s.posts[i]));
  }

  /** The transport is stopped and no producer is between its check and its push. */
  predicate Settled(s: State) {
    s.core.shouldStop && s.producers == map[] && (s.worker.Exited? ==> s.core.tasks == [])
  }

  lemma {:induction false} RunIsSettled(s: State, steps: seq<Step>)
    requires Settled(s) && IsRun(s, steps)
    ensures Settled(After(s, steps)) && After(s, steps).accepted == s.accepted
    decreases |steps|
  {
    if steps != [] {
      RunIsSettled(Apply(s, steps[0]), steps[1..]);
    }
  }

  /** If the client is set before the thread starts, and no producer is between its check and its
      push at some moment after `stop` and before the worker exits, then a worker that exits has
      made a request for every event ever accepted, and has popped every action. */
  lemma NothingLost(initial: State, before: seq<Step>, rest: seq<Step>, id: EventId)
    requires IsInitial(initial) && initial.core.clientSet && IsRun(initial, before)
    requires var s := After(initial, before); s.core.shouldStop && s.producers == map[] && !s.worker.Exited?
    requires IsRun(After(initial, before), rest)
    requires After(After(initial, before), rest).worker.Exited?
    requires id in After(After(initial, before), rest).accepted
    ensures var s := After(After(initial, before), rest);
            PostsOf(s.posts, id) != [] && s.popped == s.pushed
  {
    var middle := After(initial, before);
    RunIsSafe(initial, before);
    RunIsComplete(initial, before);
    RunIsSafe(middle, rest);
    RunIsComplete(middle, rest);
    RunIsSettled(middle, rest);
    var s := After(middle, rest);
    assert DoneOrPending(s, id);
    assert s.popped + [] == s.popped;
  }

  lemma {:induction false} ExitedPopsNothing(s: State, steps: seq<Step>)
    requires s.worker.Exited? && IsRun(s, steps)
    ensures After(s, steps).popped == s.popped && After(s, steps).posts == s.posts && After(s, steps).worker.Exited?
    decreases |steps|
  {
    if steps != [] {
      ExitedPopsNothing(Apply(s, steps[0]), steps[1..]);
    }
  }

  /** The worker is in its second loop, or has left it. */
  predicate InSecondLoop(worker: Worker) {
    match worker
    case Draining => true
    case Performing(draining) => draining
    case Popping(draining) => draining
    case Executing(draining, _) => draining
    case Checking(draining, _) => draining
    case Pushing(draining, _) => draining
    case Exited => true
    case _ => false
  }

  lemma {:induction false} SecondLoopIsStopped(s: State, steps: seq<Step>)
    requires (InSecondLoop(s.worker) ==> s.core.shouldStop) && IsRun(s, steps)
    ensures InSecondLoop(After(s, steps).worker) ==> After(s, steps).core.shouldStop
    decreases |steps|
  {
    if steps != [] {
      SecondLoopIsStopped(Apply(s, steps[0]), steps[1..]);
    }
  }

  lemma {:induction false} StoppedAcceptsNothing(s: State, steps: seq<Step>)
    requires s.core.shouldStop && IsRun(s, steps)
    ensures After(s, steps).accepted == s.accepted
    decreases |steps|
  {
    if steps != [] {
      StoppedAcceptsNothing(Apply(s, steps[0]), steps[1..]);
    }
  }

  lemma ExitStep(s: State, step: Step)
    requires step.Work? && Enabled(s, step) && Apply(s, step).worker.Exited?
    ensures s.worker.Draining? && s.core.tasks == []
  {
  }

  /** What the worker finds when it exits, with the client set from the start. */
  lemma AtExit(initial: State, before: seq<Step>, step: Step)
    requires IsInitial(initial) && initial.core.clientSet && IsRun(initial, before)
    requires step.Work? && Enabled(After(initial, before), step) && Apply(After(initial, before), step).worker.Exited?
    ensures var s := After(initial, before);
            && s.core.shouldStop && s.core.tasks == [] && Held(s).None? && s.popped == s.pushed
            && Safe(s) && Complete(s)
  {
    var s := After(initial, before);
    RunIsSafe(initial, before);
    RunIsComplete(initial, before);
    SecondLoopIsStopped(initial, before);
    ExitStep(s, step);
    assert s.popped + [] == s.popped;
  }

  /** The exit of the worker decides over every event, in every continuation: one that was accepted
      has been requested exactly if no producer is still between its check and its push with it. */
  lemma ExitDecides(initial: State, before: seq<Step>, step: Step, rest: seq<Step>, id: EventId)
    requires IsInitial(initial) && initial.core.clientSet && IsRun(initial, before)
    requires step.Work? && Enabled(After(initial, before), step) && Apply(After(initial, before), step).worker.Exited?
    requires IsRun(Apply(After(initial, before), step), rest)
    ensures var s := After(initial, before);
            var t := After(Apply(s, step), rest);
            && t.accepted == s.accepted && t.popped == s.pushed
            && (id in t.accepted ==> (PostsOf(t.posts, id) != [] <==> id !in s.producers))
  {
    var s := After(initial, before);
    AtExit(initial, before, step);
    StoppedAcceptsNothing(Apply(s, step), rest);
    ExitedPopsNothing(Apply(s, step), rest);
    if id in s.producers {
      assert Stands(s.posts, s.accepted, Send(id, s.producers[id]));
    } else if id in s.accepted {
      assert DoneOrPending(s, id);
    }
  }

  ghost predicate AllRequested(s: State) {
    forall id :: id in s.accepted ==> PostsOf(s.posts, id) != []
  }

  /** So every accepted event is requested if and only if the worker exits with no producer between
      its check and its push. */
  lemma AllRequestedIff(initial: State, before: seq<Step>, step: Step, rest: seq<Step>)
    requires IsInitial(initial) && initial.core.clientSet && IsRun(initial, before)
    requires step.Work? && Enabled(After(initial, before), step) && Apply(After(initial, before), step).worker.Exited?
    requires IsRun(Apply(After(initial, before), step), rest)
    ensures var s := After(initial, before);
            var t := After(Apply(s, step), rest);
            AllRequested(t) <==> s.producers == map[]
  {
    var s := After(initial, before);
    var t := After(Apply(s, step), rest);
    forall id
      ensures t.accepted == s.accepted
      ensures id in t.accepted ==> (PostsOf(t.posts, id) != [] <==> id !in s.producers)
    {
      ExitDecides(initial, before, step, rest, id);
    }
    AtExit(initial, before, step);
    if s.producers == map[] {
      forall id | id in t.accepted ensures PostsOf(t.posts, id) != [] {
        assert id !in s.producers;
      }
    } else {
      var id :| id in s.producers;
      assert Stands(s.posts, s.accepted, Send(id, s.producers[id]));
      assert id in t.accepted && PostsOf(t.posts, id) == [];
      assert !AllRequested(t);
    }
  }

  /** That a producer is there when the worker exits does happen: one that has found the transport
      not stopped may push after the worker has exited, and its event is lost. */
  lemma LateEvent(content: string, rest: seq<Step>)
    ensures var initial := State(FRESH.(clientSet := true), Running, 0, map[], map[], [], [], []);
            var work := Work(0, 0, "", Failure);
            var steps := [Check(0, content), Stop, work, work, Push(0)];
            && IsInitial(initial) && IsRun(initial, steps)
            && After(initial, steps).core.tasks == [Send(0, content)]
            && (IsRun(After(initial, steps), rest) ==> After(After(initial, steps), rest).popped == [])
  {
    var initial := State(FRESH.(clientSet := true), Running, 0, map[], map[], [], [], []);
    var work := Work(0, 0, "", Failure);
    var s1 := Apply(initial, Check(0, content));
    var s2 := Apply(s1, Stop);
    var s3 := Apply(s2, work);
    var s4 := Apply(s3, work);
    var s5 := Apply(s4, Push(0));
    RunOne(s4, Push(0), []);
    RunOne(s3, work, [Push(0)]);
    RunOne(s2, work, [work, Push(0)]);
    RunOne(s1, Stop, [work, work, Push(0)]);
    RunOne(initial, Check(0, content), [Stop, work, work, Push(0)]);
    if IsRun(s5, rest) {
      ExitedPopsNothing(s5, rest);
    }
  }

  lemma RunOne(s: State, step: Step, steps: seq<Step>)
    requires Enabled(s, step) && IsRun(Apply(s, step), steps)
    ensures IsRun(s, [step] + steps) && After(s, [step] + steps) == After(Apply(s, step), steps)
  {
    assert ([step] + steps)[1..] == steps;
  }

  // ---------------------------------------------------------------------------------------------
  // Draining

  /** The actions that a stopped transport may still have to pop. */
  function ToDrain(s: State): (n: nat) {
    |s.core.tasks| + |s.producers.Keys| + (if s.worker.Pushing? then 1 else 0)
  }

  /** The worker only waits: for the time-out, or for an end of dropping that never comes. */
  predicate Waits(s: State, step: Step) {
    && step.Work? && s.worker.Performing?
    && (s.core.mode == DropEvents || (s.core.mode == NoConnection && !ReconnectTimeoutReached(s.core, step.now)))
  }

  /** How far the worker is from its next pop, in steps. */
  function Position(s: State): (n: nat)
    ensures n < 10
  {
    var test := match s.core.mode case NoConnection => 5 case SendEvents => 3 case DropEvents => 1;
    match s.worker
    case Running => test + 1
    case Draining => test
    case Performing(draining) => if draining then test - 1 else test + 3
    case Popping(_) => 1
    case Executing(_, _) => 9
    case Checking(_, _) => 8
    case Pushing(_, _) => 7
    case _ => 0
  }

  function Measure(s: State): (n: nat) { 10 * ToDrain(s) + Position(s) }

  /** After `stop` nothing is added to what has to be drained, retries included, and every pop
      takes one away; and the worker comes closer to its end with every step but the waiting. */
  lemma StepDrains(s: State, step: Step)
    requires s.core.shouldStop && Queued(s) && Enabled(s, step)
    ensures var t := Apply(s, step);
            && t.core.shouldStop
            && ToDrain(t) + |t.popped| - |s.popped| <= ToDrain(s)
            && (step.Work? && s.worker.Popping? ==> ToDrain(t) == ToDrain(s) - 1)
    ensures Measure(Apply(s, step)) + (if step.Work? && !Waits(s, step) then 1 else 0)
            <= Measure(s) + (if Waits(s, step) then 1 else 0)
  {
    if step.Work? {
      WorkDrains(s, step);
    } else if step.Push? {
      assert (s.producers - {step.id}).Keys == s.producers.Keys - {step.id};
    }
  }

  lemma WorkDrains(s: State, step: Step)
    requires s.core.shouldStop && Queued(s) && Enabled(s, step) && step.Work?
    ensures var t := Apply(s, step);
            && t.core.shouldStop
            && ToDrain(t) + |t.popped| - |s.popped| <= ToDrain(s)
            && (s.worker.Popping? ==> ToDrain(t) == ToDrain(s) - 1)
    ensures Measure(Apply(s, step)) + (if Waits(s, step) then 0 else 1)
            <= Measure(s) + (if Waits(s, step) then 1 else 0)
  {
    var t := Apply(s, step);
    if s.worker.Executing? {
      assert ToDrain(t) == ToDrain(s) && t.popped == s.popped;
      assert Position(t) < 9;
    } else if s.worker.Performing? {
      PerformedDrains(s, step);
    }
  }

  lemma PerformedDrains(s: State, step: Step)
    requires Queued(s) && Enabled(s, step) && step.Work? && s.worker.Performing?
    ensures var t := Apply(s, step);
            && t.core.shouldStop == s.core.shouldStop && ToDrain(t) == ToDrain(s) && t.popped == s.popped
            && if Waits(s, step) then Position(t) <= Position(s) + 1 else Position(t) < Position(s)
  {
  }

  /** The worker's steps of a run: those in which it waits and the others. */
  function Steps(s: State, steps: seq<Step>, waiting: bool): (n: nat)
    requires IsRun(s, steps)
    decreases |steps|
  {
    if steps == [] then 0
    else
      (if steps[0].Work? && Waits(s, steps[0]) == waiting then 1 else 0)
      + Steps(Apply(s, steps[0]), steps[1..], waiting)
  }

  /** What remains to be done after `stop` bounds every continuation: the actions that are popped
      and the steps that the worker takes beside its waiting, in which each waiting step counts for
      the test of the loop to which it goes back. */
  lemma {:induction false} Drains(s: State, steps: seq<Step>)
    requires s.core.shouldStop && Queued(s) && IsRun(s, steps)
    ensures var t := After(s, steps);
            && |t.popped| - |s.popped| <= ToDrain(s) - ToDrain(t)
            && Steps(s, steps, false) + Measure(t) <= Measure(s) + Steps(s, steps, true)
    decreases |steps|
  {
    if steps != [] {
      StepDrains(s, steps[0]);
      StepQueued(s, steps[0]);
      Drains(Apply(s, steps[0]), steps[1..]);
    }
  }

  /** How long a failed request keeps the worker from sending, in nanoseconds. */
  const BACK_OFF := RECONNECTION_TIMEOUT_MILLISECONDS * NANOSECONDS_IN_MILLISECOND

  /** What is left of the back-off. */
  function BackOffLeft(core: Core, clock: nat): (t: nat) {
    if core.mode == NoConnection && core.lastConnectionRequestTime + BACK_OFF > clock
    then core.lastConnectionRequestTime + BACK_OFF - clock else 0
  }

  /** The actions that may still fail. */
  function MayFail(s: State): (n: nat) { ToDrain(s) + (if s.worker.Executing? then 1 else 0) }

  /** The time that a stopped worker may still have to wait: what is left of the back-off that it is
      in, and one for each action that may still fail. */
  function TimeToWait(s: State): (t: nat) { BACK_OFF * MayFail(s) + BackOffLeft(s.core, s.clock) }

  /** The time that passes in a step in which the worker waits. */
  function WaitedIn(s: State, step: Step): (t: nat)
    requires Enabled(s, step)
  {
    if Waits(s, step) then step.now - s.clock else 0
  }

  /** The time that passes while the worker waits. */
  function Waited(s: State, steps: seq<Step>): (t: nat)
    requires IsRun(s, steps)
    decreases |steps|
  {
    if steps == [] then 0
    else WaitedIn(s, steps[0]) + Waited(Apply(s, steps[0]), steps[1..])
  }

  /** Whenever the worker looks at the clock to wait on, time has passed. */
  predicate ClockTicks(s: State, steps: seq<Step>)
    requires IsRun(s, steps)
    decreases |steps|
  {
    steps == [] || ((Waits(s, steps[0]) ==> steps[0].now > s.clock) && ClockTicks(Apply(s, steps[0]), steps[1..]))
  }

  lemma ExecutedWaits(s: State, step: Step)
    requires Enabled(s, step) && step.Work? && !IsTooMany(step.reply) && s.worker.Executing?
    requires s.core.mode == SendEvents
    ensures var t := Apply(s, step);
            && t.core.mode != DropEvents && MayFail(t) == MayFail(s) - 1
            && BackOffLeft(t.core, t.clock) <= BackOffLeft(s.core, s.clock) + BACK_OFF
  {
  }

  lemma PerformedWaits(s: State, step: Step)
    requires Queued(s) && s.core.mode != DropEvents && Enabled(s, step) && step.Work? && s.worker.Performing?
    ensures var t := Apply(s, step);
            && t.core.mode != DropEvents && MayFail(t) == MayFail(s)
            && BackOffLeft(t.core, t.clock) + WaitedIn(s, step) <= BackOffLeft(s.core, s.clock)
  {
    TimeoutIs(s.core, step.now);
    PerformedDrains(s, step);
  }

  lemma OtherWorkWaits(s: State, step: Step)
    requires s.core.shouldStop && Queued(s) && Enabled(s, step)
    requires step.Work? && !s.worker.Executing? && !s.worker.Performing?
    ensures var t := Apply(s, step);
            && t.core.mode == s.core.mode && MayFail(t) <= MayFail(s)
            && BackOffLeft(t.core, t.clock) <= BackOffLeft(s.core, s.clock)
  {
    WorkDrains(s, step);
  }

  lemma NotWorkedWaits(s: State, step: Step)
    requires s.core.shouldStop && Enabled(s, step) && !step.Work?
    ensures var t := Apply(s, step);
            t.core.mode == s.core.mode && MayFail(t) <= MayFail(s)
            && BackOffLeft(t.core, t.clock) == BackOffLeft(s.core, s.clock)
  {
    if step.Push? {
      assert (s.producers - {step.id}).Keys == s.producers.Keys - {step.id};
    }
  }

  lemma StepLeaves(s: State, step: Step)
    requires s.core.shouldStop && Safe(s) && s.core.mode != DropEvents && Enabled(s, step)
    requires step.Work? ==> !IsTooMany(step.reply)
    ensures var t := Apply(s, step);
            var left := BackOffLeft(t.core, t.clock) + WaitedIn(s, step);
            && t.core.mode != DropEvents
            && MayFail(t) <= MayFail(s)
            && (left <= BackOffLeft(s.core, s.clock)
                || (MayFail(t) == MayFail(s) - 1 && left <= BackOffLeft(s.core, s.clock) + BACK_OFF))
  {
    if !step.Work? {
      NotWorkedWaits(s, step);
    } else if s.worker.Executing? {
      ExecutedWaits(s, step);
    } else if s.worker.Performing? {
      PerformedWaits(s, step);
    } else {
      OtherWorkWaits(s, step);
    }
  }

  lemma LessToWait(before: nat, after: nat, leftBefore: nat, leftAfter: nat)
    requires after <= before
    requires leftAfter <= leftBefore || (after == before - 1 && leftAfter <= leftBefore + BACK_OFF)
    ensures BACK_OFF * after + leftAfter <= BACK_OFF * before + leftBefore
  {
  }

  lemma StepWaits(s: State, step: Step)
    requires s.core.shouldStop && Safe(s) && s.core.mode != DropEvents && Enabled(s, step)
    requires step.Work? ==> !IsTooMany(step.reply)
    ensures Apply(s, step).core.mode != DropEvents
    ensures TimeToWait(Apply(s, step)) + WaitedIn(s, step) <= TimeToWait(s)
  {
    var t := Apply(s, step);
    StepLeaves(s, step);
    LessToWait(MayFail(s), MayFail(t), BackOffLeft(s.core, s.clock), BackOffLeft(t.core, t.clock) + WaitedIn(s, step));
  }

  /** After `stop`, and without a response 429, the worker waits no longer in all than ten seconds
      for each action still to drain, beside what is left of the back-off. So if time passes
      whenever it waits, its steps are bounded outright: it comes to its end. */
  lemma {:induction false} DrainsInTime(s: State, steps: seq<Step>)
    requires s.core.shouldStop && Safe(s) && s.core.mode != DropEvents && IsRun(s, steps)
    requires forall i :: 0 <= i < |steps| && steps[i].Work? && steps[i].reply.Response? ==>
               steps[i].reply.status != "429 Too Many Requests"
    ensures Waited(s, steps) + TimeToWait(After(s, steps)) <= TimeToWait(s)
    ensures ClockTicks(s, steps) ==>
              Steps(s, steps, true) <= Waited(s, steps)
              && Steps(s, steps, true) + Steps(s, steps, false) <= Measure(s) + 2 * TimeToWait(s)
    decreases |steps|
  {
    Drains(s, steps);
    if steps != [] {
      StepIsSafe(s, steps[0]);
      StepDrains(s, steps[0]);
      StepWaits(s, steps[0]);
      DrainsInTime(Apply(s, steps[0]), steps[1..]);
    }
  }

  /** From a response 429 on nothing is popped or requested, and a worker that has something left
      in its queue does not exit, stopped or not. */
  lemma {:induction false} DroppingNeverDrains(s: State, steps: seq<Step>)
    requires Safe(s) && s.core.mode == DropEvents && IsRun(s, steps)
    ensures var t := After(s, steps);
            && t.core.mode == DropEvents && t.popped == s.popped && t.posts == s.posts
            && |t.core.tasks| >= |s.core.tasks|
            && (s.core.tasks != [] && !s.worker.Exited? ==> !t.worker.Exited?)
    decreases |steps|
  {
    if steps != [] {
      StepIsSafe(s, steps[0]);
      DroppingNeverDrains(Apply(s, steps[0]), steps[1..]);
    }
  }

  // ---------------------------------------------------------------------------------------------
  // The object, with one thread at work

  /** The fields after an action has run without interruption. */
  function Sent(core: Core, task: Task, header: string, reply: Reply, now: nat): (r: Core) {
    if !core.clientSet then core
    else if IsRefused(reply) && task.Send? then Enqueued(Answered(core, reply, now), RetryOf(task, header))
    else Answered(core, reply, now)
  }

  /** The fields after `perform` has run without interruption. */
  function PerformedAlone(core: Core, header: string, reply: Reply, now: nat): (r: Core) {
    match core.mode
    case NoConnection => NoConnectionPerformed(core, now)
    case SendEvents =>
      if core.tasks == [] then core
      else Sent(core.(tasks := core.tasks[1..]), core.tasks[0], header, reply, now)
    case DropEvents => core
  }

  class Transport {
    var tasks: seq<Task>
    var mode: Mode
    var shouldStop: bool
    var clientSet: bool
    var lastConnectionRequestTime: nat
    var retryAfterMilliseconds: nat

    ghost function Value(): (core: Core)
      reads this
    {
      Core(tasks, mode, shouldStop, clientSet, lastConnectionRequestTime, retryAfterMilliseconds)
    }

    constructor ()
      ensures Value() == FRESH
    {
      tasks, mode, shouldStop, clientSet := [], NoConnection, false, false;
      lastConnectionRequestTime, retryAfterMilliseconds := 0, 0;
    }

    method SendEvent(id: EventId, content: string)
      modifies this`tasks
      ensures Value() == Enqueued(old(Value()), Send(id, content))
    {
      AddActionToQueue(Send(id, content));
    }

    method SendEventRetry(task: Task, header: string)
      modifies this`tasks
      ensures Value() == Enqueued(old(Value()), RetryOf(task, header))
    {
      AddActionToQueue(Retry(task.id, task.content, header));
    }

    method AddActionToQueue(task: Task)
      modifies this`tasks
      ensures Value() == Enqueued(old(Value()), task)
    {
      if !shouldStop {
        tasks := tasks + [task];
      }
    }

    method ChangeState(newState: Mode)
      modifies this`mode
      ensures mode == newState
    {
      mode := newState;
    }

    method PerformNoConnection(now: nat)
      modifies this`mode
      ensures Value() == NoConnectionPerformed(old(Value()), now)
    {
      var timeSinceLastRequest := now - lastConnectionRequestTime;
      if timeSinceLastRequest >= 0
         && timeSinceLastRequest / NANOSECONDS_IN_MILLISECOND >= RECONNECTION_TIMEOUT_MILLISECONDS {
        ChangeState(SendEvents);
      }
    }

    /** The loop over the header. `thrown` is the exception of a field that is no number. */
    method HandleTooManyRequests(header: seq<Field>) returns (thrown: bool)
      modifies this`retryAfterMilliseconds, this`mode
      ensures thrown <==> RetryAfter(header, RECONNECTION_TIMEOUT_MILLISECONDS).None?
      ensures !thrown ==> mode == DropEvents
      ensures !thrown ==>
        Some(retryAfterMilliseconds) == RetryAfter(header, RECONNECTION_TIMEOUT_MILLISECONDS)
      ensures thrown ==> mode == old(mode)
    {
      retryAfterMilliseconds := RECONNECTION_TIMEOUT_MILLISECONDS;
      var h := 0;
      assert header[0..] == header;
      while h < |header|
        invariant 0 <= h <= |header|
        invariant mode == old(mode)
        invariant RetryAfter(header[h..], retryAfterMilliseconds)
                  == RetryAfter(header, RECONNECTION_TIMEOUT_MILLISECONDS)
      {
        assert header[h..][0] == header[h] && header[h..][1..] == header[h + 1..];
        if header[h].0 == "Retry-After" {
          var seconds := StoUL(header[h].1, 10);
          if seconds.None? {
            return true;
          }
          retryAfterMilliseconds := seconds.value * MILLISECONDS_IN_SECOND % UINT64_LIMIT;
        }
        h := h + 1;
      }
      ChangeState(DropEvents);
      return false;
    }

    method CheckResponse(reply: Reply) returns (ok: bool, thrown: bool)
      requires reply.Response?
      modifies this`retryAfterMilliseconds, this`mode
      ensures thrown <==> IsFatal(reply)
      ensures !thrown ==> Value() == Answered(old(Value()), reply, 0) && ok == !IsRefused(reply)
    {
      ok, thrown := true, false;
      if reply.status == "200 OK" {
      } else if reply.status == "429 Too Many Requests" {
        thrown := HandleTooManyRequests(reply.header);
      } else {
        ok := false;
      }
    }

    /** `sendPost`, with the header that is made for a first try, what the server says and the
        clock at the end. */
    method SendPost(task: Task, newHeader: string, reply: Reply, now: nat) returns (thrown: bool)
      modifies this
      ensures thrown <==> old(clientSet) && IsFatal(reply)
      ensures !thrown ==> Value() == Sent(old(Value()), task, newHeader, reply, now)
    {
      thrown := false;
      if !clientSet {
        return;
      }
      if reply.Failure? {
        ChangeState(NoConnection);
        lastConnectionRequestTime := now;
      } else if reply.Thrown? {
        thrown := true;
      } else {
        var ok;
        ok, thrown := CheckResponse(reply);
        if !thrown && !ok && !task.Retry? {
          SendEventRetry(task, newHeader);
        }
      }
    }

    method PerformSendEvents(newHeader: string, reply: Reply, now: nat) returns (thrown: bool)
      requires mode == SendEvents
      modifies this
      ensures thrown <==> old(clientSet) && old(tasks) != [] && IsFatal(reply)
      ensures !thrown ==> Value() == PerformedAlone(old(Value()), newHeader, reply, now)
    {
      if tasks == [] {
        return false;
      }
      var funcToExecute := tasks[0];
      tasks := tasks[1..];
      thrown := SendPost(funcToExecute, newHeader, reply, now);
    }

    method Perform(newHeader: string, reply: Reply, now: nat) returns (thrown: bool)
      modifies this
      ensures thrown <==> old(mode) == SendEvents && old(clientSet) && old(tasks) != [] && IsFatal(reply)
      ensures !thrown ==> Value() == PerformedAlone(old(Value()), newHeader, reply, now)
    {
      thrown := false;
      match mode {
        case NoConnection => PerformNoConnection(now);
        case SendEvents => thrown := PerformSendEvents(newHeader, reply, now);
        case DropEvents =>
      }
    }

    method Stop()
      modifies this`shouldStop
      ensures Value() == old(Value()).(shouldStop := true)
    {
      shouldStop := true;
    }
  }

  function StepsToLoop(worker: Worker): (n: nat) {
    match worker
    case Performing(_) => 5
    case Popping(_) => 4
    case Executing(_, _) => 3
    case Checking(_, _) => 2
    case Pushing(_, _) => 1
    case _ => 0
  }

  /** The worker goes on without interruption to the test of its loop, or to its end. */
  function ToLoop(s: State, step: Step): (r: State)
    requires step.Work? && s.clock <= step.start == step.now
    decreases StepsToLoop(s.worker)
  {
    if StepsToLoop(s.worker) == 0 then s else ToLoop(Apply(s, step), step)
  }

  /** From the action on: the request, and what becomes of a retry. */
  lemma ExecutedAlone(s: State, step: Step)
    requires s.worker.Executing? && step.Work? && s.clock <= step.start == step.now
    ensures var t := ToLoop(s, step);
            if s.core.clientSet && IsFatal(step.reply) then t.worker == Terminated
            else t.worker == Loop(s.worker.draining)
                 && t.core == Sent(s.core, s.worker.task, step.header, step.reply, step.now)
  {
    var s1 := Apply(s, step);
    if s1.worker.Checking? {
      var s2 := Apply(s1, step);
      if s2.worker.Pushing? {
        assert ToLoop(s2, step) == Apply(s2, step);
      }
      assert ToLoop(s1, step) == ToLoop(s2, step);
    }
    assert ToLoop(s, step) == ToLoop(s1, step);
  }

  /** A worker that is not interrupted does what `perform` does to the object, and ends up at the
      test of its loop, unless an exception ends it. */
  lemma PerformIsUninterrupted(s: State, step: Step)
    requires Queued(s) && s.worker.Performing? && step.Work? && s.clock <= step.start == step.now
    ensures var t := ToLoop(s, step);
            if s.core.mode == SendEvents && s.core.clientSet && s.core.tasks != [] && IsFatal(step.reply) then
              t.worker == Terminated
            else
              t.worker == Loop(s.worker.draining)
              && t.core == PerformedAlone(s.core, step.header, step.reply, step.now)
  {
    var s1 := Apply(s, step);
    assert ToLoop(s, step) == ToLoop(s1, step);
    if s.core.mode == SendEvents && s.core.tasks != [] {
      var s2 := Apply(s1, step);
      assert ToLoop(s1, step) == ToLoop(s2, step);
      ExecutedAlone(s2, step);
    }
  }
}
