/** The RDMA file transfer of rdma/03_file-transfer: a client pushes a file into a server's buffer by one-sided
    writes, and the two hand the buffers to each other by messages alone.

    The network is a reliable connection. A posted write is carried out by the adapters at any later time, from
    the client's buffer as it is then into the server's; only when the data is placed, and a receive is posted
    at the server, does the server get a completion with the immediate value. A posted message is read from the
    sender's message buffer at any later time, once the client has a receive posted. */
module FileTransfer {

  const BUFFER_SIZE: nat := 10 * 1024 * 1024
  const MAX_FILE_NAME: nat := 256

  type byte = n: nat | n < 256

  datatype MsgId = INVALID | MR | READY | DONE

  /** struct client_context and the client's queue pair: the lengths of posted writes, posted receives, receive
      completions, and whether the handler has still to post a receive before it returns. */
  datatype Client = Client(buffer: seq<byte>, pos: nat, msg: MsgId, peer: bool,
                           writes: seq<nat>, posted: nat, completions: nat, owes: bool, closed: bool)

  /** struct conn_context and the server's queue pair. `file` is what was written to fd. */
  datatype Server = Server(buffer: seq<byte>, name: seq<byte>, file: seq<byte>, msg: MsgId,
                           sends: nat, posted: nat, completions: seq<nat>, connected: bool)

  /** `placed`: the data of the oldest posted write is in the server's buffer. */
  datatype State = State(c: Client, s: Server, placed: bool)

  /** What the client sends: the file and its name, which fits the server's array and, being a C string, holds
      no zero byte. */
  datatype Job = Job(name: seq<byte>, file: seq<byte>)

  predicate ValidJob(job: Job) {
    0 < |job.name| < MAX_FILE_NAME && forall i :: 0 <= i < |job.name| ==> job.name[i] != 0
  }

  datatype Event =
    | Establish              // server: on_connection
    | Deliver                // network: a server message reaches the client
    | ClientHandle(size: nat) // client: on_completion up to its post_receive; read returns at most size bytes
    | ClientPost             // client: the handler's post_receive
    | Place                  // network: the data of a write reaches the server's buffer
    | Complete               // network: the write's completion reaches the server
    | ServerHandle           // server: on_completion

  /** data in place of the first bytes of the buffer */
  function Overwrite(buffer: seq<byte>, data: seq<byte>): (r: seq<byte>)
    requires |data| <= |buffer|
    ensures |r| == |buffer| && r[..|data|] == data
  {
    data + buffer[|data|..]
  }

  /** The bytes before the first zero. */
  function CString(bytes: seq<byte>): seq<byte> {
    if bytes == [] || bytes[0] == 0 then [] else [bytes[0]] + CString(bytes[1..])
  }

  /** read(fd, buffer, BUFFER_SIZE): at most what is left; nothing only at the end of the file. */
  function ReadSize(left: nat, size: nat): nat {
    if left == 0 then 0 else if size == 0 then 1
    else if size <= left && size <= BUFFER_SIZE then size
    else if left <= BUFFER_SIZE then left else BUFFER_SIZE
  }

  /** Whatever the file still has, a read may give any part of it that fits the buffer, and all such reads are covered.
      */
  lemma ReadsAreCovered(left: nat, n: nat)
    requires if left == 0 then n == 0 else 0 < n <= left && n <= BUFFER_SIZE
    ensures ReadSize(left, n) == n
  {
  }

  predicate Wf(st: State, job: Job) {
    && |st.c.buffer| == |st.s.buffer| == BUFFER_SIZE
    && st.c.pos <= |job.file|
    && (forall i :: 0 <= i < |st.c.writes| ==> st.c.writes[i] <= BUFFER_SIZE)
    && (forall i :: 0 <= i < |st.s.completions| ==> st.s.completions[i] <= BUFFER_SIZE)
  }

  /** The event can happen. */
  predicate Enabled(st: State, e: Event) {
    match e
    case Establish => !st.s.connected
    case Deliver => st.s.sends > 0 && st.c.posted > 0
    case ClientHandle(_) => st.c.completions > 0 && !st.c.owes
    case ClientPost => st.c.owes
    case Place => st.c.writes != [] && !st.placed
    case Complete => st.c.writes != [] && st.placed && st.s.posted > 0
    case ServerHandle => st.s.completions != []
  }

  // ---------- the client's handlers ----------

  function SendFileName(c: Client, job: Job): Client
    requires ValidJob(job) && |c.buffer| == BUFFER_SIZE
  {
    c.(buffer := Overwrite(c.buffer, job.name + [0]), writes := c.writes + [|job.name| + 1])
  }

  function SendNextChunk(c: Client, job: Job, size: nat): Client
    requires |c.buffer| == BUFFER_SIZE && c.pos <= |job.file|
  {
    var n := ReadSize(|job.file| - c.pos, size);
    c.(buffer := Overwrite(c.buffer, job.file[c.pos..c.pos + n]), pos := c.pos + n, writes := c.writes + [n])
  }

  function ClientCompletion(c: Client, job: Job, size: nat): Client
    requires ValidJob(job) && |c.buffer| == BUFFER_SIZE && c.pos <= |job.file| && c.completions > 0
  {
    var c := c.(completions := c.completions - 1, owes := c.msg != DONE);
    match c.msg
    case MR => SendFileName(c.(peer := true), job)
    case READY => SendNextChunk(c, job, size)
    case DONE => c.(closed := true)
    case INVALID => c
  }

  // ---------- the server's handlers ----------

  function SendMessage(s: Server, msg: MsgId): Server {
    s.(msg := msg, sends := s.sends + 1)
  }

  function ServerCompletion(s: Server): Server
    requires |s.buffer| == BUFFER_SIZE && s.completions != [] && s.completions[0] <= BUFFER_SIZE
  {
    var size := s.completions[0];
    var s := s.(completions := s.completions[1..]);
    if size == 0 then SendMessage(s, DONE)
    else if s.name != [] then SendMessage(s.(file := s.file + s.buffer[..size], posted := s.posted + 1), READY)
    else SendMessage(s.(name := CString(s.buffer[..size - 1]), posted := s.posted + 1), READY)
  }

  function Step(st: State, e: Event, job: Job): State
    requires ValidJob(job) && Wf(st, job) && Enabled(st, e)
  {
    match e
    case Establish => st.(s := SendMessage(st.s.(connected := true), MR))
    case Deliver =>
      st.(s := st.s.(sends := st.s.sends - 1),
          c := st.c.(msg := st.s.msg, posted := st.c.posted - 1, completions := st.c.completions + 1))
    case ClientHandle(size) => st.(c := ClientCompletion(st.c, job, size))
    case ClientPost => st.(c := st.c.(posted := st.c.posted + 1, owes := false))
    case Place =>
      st.(s := st.s.(buffer := Overwrite(st.s.buffer, st.c.buffer[..st.c.writes[0]])), placed := true)
    case Complete =>
      st.(c := st.c.(writes := st.c.writes[1..]), placed := false,
          s := st.s.(posted := st.s.posted - 1, completions := st.s.completions + [st.c.writes[0]]))
    case ServerHandle => st.(s := ServerCompletion(st.s))
  }

  /** Both sides after on_pre_conn: buffers with any content, one receive posted each. */
  predicate Initial(st: State) {
    && |st.c.buffer| == |st.s.buffer| == BUFFER_SIZE
    && st.c == Client(st.c.buffer, 0, INVALID, false, [], 1, 0, false, false)
    && st.s == Server(st.s.buffer, [], [], INVALID, 0, 1, [], false)
    && !st.placed
  }

  // ---------- the hand-over ----------

  /** Where the turn is: exactly one of the connection event, a posted message, a completion at the client, a
      posted write, a completion at the server, or the end. */
  function Turns(st: State): nat {
    (if st.s.connected then 0 else 1) + st.s.sends + st.c.completions + |st.c.writes| + |st.s.completions|
    + (if st.c.closed then 1 else 0)
  }

  /** The chunk that has left the file and not reached the server's. */
  function InFlight(st: State): seq<byte>
    requires |st.c.buffer| == |st.s.buffer| == BUFFER_SIZE
  {
    if st.s.name == [] then []
    else if |st.c.writes| == 1 && st.c.writes[0] <= BUFFER_SIZE then st.c.buffer[..st.c.writes[0]]
    else if |st.s.completions| == 1 && st.s.completions[0] <= BUFFER_SIZE then st.s.buffer[..st.s.completions[0]]
    else []
  }

  /** What a message says when it is read. */
  ghost predicate Says(st: State, msg: MsgId, job: Job) {
    && msg != INVALID
    && (msg == MR <==> st.s.name == [])
    && (msg == DONE ==> st.s.file == job.file)
  }

  ghost predicate Inv(st: State, job: Job) {
    && ValidJob(job) && Wf(st, job)
    && Turns(st) == 1
    // The server's file and the chunk under way are what the client has read.
    && (st.s.name == [] || st.s.name == job.name)
    && st.s.file + InFlight(st) == job.file[..st.c.pos]
    && (st.s.name == [] ==> st.c.pos == 0)
    // The buffers hold what is under way.
    && (st.placed ==> st.c.writes != [] && st.s.buffer[..st.c.writes[0]] == st.c.buffer[..st.c.writes[0]])
    && (st.c.writes != [] ==> Carries(st.c.writes[0], st.c.buffer, st, job))
    && (st.s.completions != [] ==> Carries(st.s.completions[0], st.s.buffer, st, job))
    // Writes need the server's address, which its first message brings.
    && (st.c.writes != [] ==> st.c.peer)
    && (st.c.pos > 0 || st.s.name != [] || st.s.completions != [] ==> st.c.peer)
    && (st.c.peer ==> st.s.connected)
    // Messages.
    && (st.s.sends > 0 ==> Says(st, st.s.msg, job))
    && (st.c.completions > 0 ==> Says(st, st.c.msg, job))
    && (st.c.closed ==> st.s.file == job.file && st.s.name == job.name)
    && (!st.s.connected ==> st.s.name == [])
    // Posted receives.
    && st.c.posted == (if st.c.owes || st.c.completions > 0 || st.c.closed then 0 else 1)
    && (st.c.owes ==> st.c.completions == 0 && !st.c.closed)
    && st.s.posted == (if st.s.completions != [] || Over(st) then 0 else 1)
  }

  /** The server has sent, or is sending, DONE. */
  predicate Over(st: State) {
    (st.s.sends > 0 && st.s.msg == DONE) || (st.c.completions > 0 && st.c.msg == DONE) || st.c.closed
  }

  /** A write is the file name, a chunk, or empty at the end of the file. */
  ghost predicate Carries(size: nat, buffer: seq<byte>, st: State, job: Job)
    requires size <= |buffer|
  {
    if st.s.name == [] then size == |job.name| + 1 && buffer[..size] == job.name + [0]
    else size == 0 ==> st.c.pos == |job.file|
  }

  lemma CStringOf(name: seq<byte>)
    requires forall i :: 0 <= i < |name| ==> name[i] != 0
    ensures CString(name) == name
  {
    if name != [] {
      CStringOf(name[1..]);
      assert name == [name[0]] + name[1..];
    }
  }

  lemma InitialInv(st: State, job: Job)
    requires ValidJob(job) && Initial(st)
    ensures Inv(st, job)
  {
  }

  lemma EstablishInv(st: State, job: Job)
    requires Inv(st, job) && Enabled(st, Establish)
    ensures Inv(Step(st, Establish, job), job)
  {
  }

  lemma DeliverInv(st: State, job: Job)
    requires Inv(st, job) && Enabled(st, Deliver)
    ensures Inv(Step(st, Deliver, job), job)
  {
    assert InFlight(Step(st, Deliver, job)) == InFlight(st);
  }

  lemma ClientPostInv(st: State, job: Job)
    requires Inv(st, job) && Enabled(st, ClientPost)
    ensures Inv(Step(st, ClientPost, job), job)
  {
    var st' := Step(st, ClientPost, job);
    assert InFlight(st') == InFlight(st) && Over(st') == Over(st) && Turns(st') == Turns(st);
    hide InFlight, Over, Turns;
  }

  lemma PlaceInv(st: State, job: Job)
    requires Inv(st, job) && Enabled(st, Place)
    ensures Inv(Step(st, Place, job), job)
  {
    assert InFlight(Step(st, Place, job)) == InFlight(st);
  }

  lemma CompleteInv(st: State, job: Job)
    requires Inv(st, job) && Enabled(st, Complete)
    ensures Inv(Step(st, Complete, job), job)
  {
    var st' := Step(st, Complete, job);
    OnlyWrite(st, job);
    assert st'.s.completions == [st.c.writes[0]] && st'.c.writes == [];
    assert InFlight(st') == InFlight(st);
    hide InFlight, Carries, Says, ValidJob;
  }

  /** With a write under way, nothing else is. */
  lemma OnlyWrite(st: State, job: Job)
    requires Inv(st, job) && st.c.writes != []
    ensures st.c.writes == [st.c.writes[0]] && st.s.completions == [] && st.s.sends == 0 && st.c.completions == 0
    ensures !st.c.closed && st.s.connected
  {
  }

  lemma SendNameInv(st: State, size: nat, job: Job)
    requires Inv(st, job) && Enabled(st, ClientHandle(size)) && st.c.msg == MR
    ensures Inv(Step(st, ClientHandle(size), job), job)
  {
    var st' := Step(st, ClientHandle(size), job);
    var write := job.name + [0];
    assert st.s.name == [] && st.c.writes == [] && st.s.completions == [] && st.s.sends == 0;
    assert st'.c.writes == [|write|];
    assert st'.c.buffer[..|write|] == write;
    assert InFlight(st) == InFlight(st') == [];
    hide InFlight, Overwrite;
  }

  lemma SendChunkInv(st: State, size: nat, job: Job)
    requires Inv(st, job) && Enabled(st, ClientHandle(size)) && st.c.msg == READY
    ensures Inv(Step(st, ClientHandle(size), job), job)
  {
    var st' := Step(st, ClientHandle(size), job);
    var n := ReadSize(|job.file| - st.c.pos, size);
    assert st.s.file == job.file[..st.c.pos];
    assert st'.c.writes == [n] && InFlight(st') == job.file[st.c.pos..st.c.pos + n];
    assert st'.s.file + InFlight(st') == job.file[..st.c.pos + n];
  }

  lemma FinishInv(st: State, size: nat, job: Job)
    requires Inv(st, job) && Enabled(st, ClientHandle(size)) && st.c.msg == DONE
    ensures Inv(Step(st, ClientHandle(size), job), job)
  {
  }

  lemma OpenInv(st: State, job: Job)
    requires Inv(st, job) && Enabled(st, ServerHandle) && st.s.name == []
    ensures Inv(Step(st, ServerHandle, job), job)
  {
    var size := st.s.completions[0];
    assert st.s.completions == [size];
    assert st.s.buffer[..size - 1] == (job.name + [0])[..size - 1] == job.name;
    CStringOf(job.name);
  }

  lemma WriteInv(st: State, job: Job)
    requires Inv(st, job) && Enabled(st, ServerHandle) && st.s.name != [] && st.s.completions[0] != 0
    ensures Inv(Step(st, ServerHandle, job), job)
  {
    var size := st.s.completions[0];
    var st' := Step(st, ServerHandle, job);
    assert st.s.completions == [size];
    assert InFlight(st) == st.s.buffer[..size] && InFlight(st') == [];
    assert st'.s.file + [] == st'.s.file;
  }

  lemma DoneInv(st: State, job: Job)
    requires Inv(st, job) && Enabled(st, ServerHandle) && st.s.name != [] && st.s.completions[0] == 0
    ensures Inv(Step(st, ServerHandle, job), job)
  {
    assert st.s.completions == [0];
    assert InFlight(st) == [];
    assert st.s.file == job.file[..|job.file|] == job.file;
  }

  lemma StepInv(st: State, e: Event, job: Job)
    requires Inv(st, job) && Enabled(st, e)
    ensures Inv(Step(st, e, job), job)
  {
    hide Inv, Step;
    match e {
      case Establish => EstablishInv(st, job);
      case Deliver => DeliverInv(st, job);
      case ClientHandle(size) =>
        ClientMessage(st, size, job);
        if st.c.msg == MR { SendNameInv(st, size, job); }
        else if st.c.msg == READY { SendChunkInv(st, size, job); }
        else { FinishInv(st, size, job); }
      case ClientPost => ClientPostInv(st, job);
      case Place => PlaceInv(st, job);
      case Complete => CompleteInv(st, job);
      case ServerHandle =>
        ServerMessage(st, job);
        if st.s.name == [] { OpenInv(st, job); }
        else if st.s.completions[0] == 0 { DoneInv(st, job); }
        else { WriteInv(st, job); }
    }
  }

  lemma ClientMessage(st: State, size: nat, job: Job)
    requires Inv(st, job) && Enabled(st, ClientHandle(size))
    ensures st.c.msg != INVALID && ValidJob(job) && Wf(st, job)
  {
  }

  lemma ServerMessage(st: State, job: Job)
    requires Inv(st, job) && Enabled(st, ServerHandle)
    ensures ValidJob(job) && Wf(st, job)
  {
  }

  // ---------- whole runs ----------

  /** An event that cannot happen does nothing. */
  ghost function Next(st: State, e: Event, job: Job): (r: State)
    requires Inv(st, job)
    ensures Inv(r, job)
  {
    if !Enabled(st, e) then st
    else
      StepInv(st, e, job);
      Step(st, e, job)
  }

  /** The state after a schedule. */
  ghost function Run(st: State, sched: seq<Event>, job: Job): (r: State)
    requires Inv(st, job)
    ensures Inv(r, job)
    decreases |sched|
  {
    if sched == [] then st else Run(Next(st, sched[0], job), sched[1..], job)
  }

  /** The number of events that happened. */
  ghost function Happened(st: State, sched: seq<Event>, job: Job): nat
    requires Inv(st, job)
    decreases |sched|
  {
    if sched == [] then 0
    else (if Enabled(st, sched[0]) then 1 else 0) + Happened(Next(st, sched[0], job), sched[1..], job)
  }

  ghost function Started(st: State, sched: seq<Event>, job: Job): (r: State)
    requires ValidJob(job) && Initial(st)
    ensures Inv(r, job)
  {
    InitialInv(st, job);
    Run(st, sched, job)
  }

  /** The number of events of a run from the start. */
  ghost function Length(st: State, sched: seq<Event>, job: Job): nat
    requires ValidJob(job) && Initial(st)
  {
    InitialInv(st, job);
    Happened(st, sched, job)
  }

  /** At any time the server's file is a prefix of the client's, under the client's name, and it is the whole file
      once the server sends DONE. At most one write is under way; the server has a receive posted for it, and the client
      has the server's address. */
  lemma Safety(st: State, sched: seq<Event>, job: Job)
    requires ValidJob(job) && Initial(st)
    ensures var r := Started(st, sched, job);
            && r.s.file <= job.file && (r.s.name == [] || r.s.name == job.name)
            && (Over(r) ==> r.s.file == job.file)
            && |r.c.writes| + |r.s.completions| <= 1
            && (r.c.writes != [] ==> r.s.posted == 1 && r.c.peer)
            && (r.c.peer ==> r.s.connected)
  {
    var r := Started(st, sched, job);
    assert job.file[..r.c.pos] <= job.file;
  }

  /** No buffer is overwritten before its content is used: the client refills its buffer only when no write is
      under way and the server has handled the last, the network writes the server's buffer only when no
      completion waits there, and a message buffer is reused only when its message has been handled. */
  lemma HandOver(st: State, e: Event, job: Job)
    requires Inv(st, job) && Enabled(st, e)
    ensures var st' := Step(st, e, job);
            && (st'.c.buffer != st.c.buffer ==> st.c.writes == [] && st.s.completions == [])
            && (st'.s.buffer != st.s.buffer ==> st.s.completions == [])
            && (st'.s.msg != st.s.msg ==> st.s.sends == 0 && st.c.completions == 0)
            && (st'.c.msg != st.c.msg ==> st.c.completions == 0)
  {
  }

  /** Until the client has disconnected, something can happen. */
  lemma NeverStuck(st: State, job: Job) returns (e: Event)
    requires Inv(st, job) && !st.c.closed
    ensures Enabled(st, e)
  {
    if st.c.owes {
      e := ClientPost;
    } else if !st.s.connected {
      e := Establish;
    } else if st.s.sends > 0 {
      e := Deliver;
    } else if st.c.completions > 0 {
      e := ClientHandle(1);
    } else if st.c.writes != [] {
      e := if st.placed then Complete else Place;
    } else {
      e := ServerHandle;
    }
  }

  /** The name is still to be sent. */
  predicate Opening(st: State) {
    st.s.name == [] && st.c.writes == [] && st.s.completions == []
  }

  /** The empty write that ends the transfer is under way or answered. */
  predicate Ending(st: State) {
    (st.c.writes != [] && st.c.writes[0] == 0) || (st.s.completions != [] && st.s.completions[0] == 0) || Over(st)
  }

  /** How far the turn is from the client's next write. */
  function Rank(st: State): nat {
    (if st.c.closed then 0
     else if st.c.completions > 0 then 1
     else if st.s.sends > 0 then 2
     else if st.s.completions != [] || !st.s.connected then 3
     else if st.placed then 4 else 5)
    + (if st.c.owes then 1 else 0)
  }

  function Work(st: State, job: Job): nat
    requires st.c.pos <= |job.file|
  {
    8 * (|job.file| - st.c.pos) + (if Opening(st) then 8 else 0) + (if Ending(st) then 0 else 8) + Rank(st)
  }

  lemma NetworkWork(st: State, e: Event, job: Job)
    requires Inv(st, job) && Enabled(st, e) && !e.ClientHandle? && !e.ServerHandle?
    ensures Step(st, e, job).c.pos == st.c.pos && Work(Step(st, e, job), job) < Work(st, job)
  {
    hide InFlight, Carries, Says, Overwrite;
  }

  lemma ClientWork(st: State, size: nat, job: Job)
    requires Inv(st, job) && Enabled(st, ClientHandle(size))
    ensures var st' := Step(st, ClientHandle(size), job); st'.c.pos <= |job.file| && Work(st', job) < Work(st, job)
  {
    if st.c.msg == READY {
      var n := ReadSize(|job.file| - st.c.pos, size);
      assert Step(st, ClientHandle(size), job).c.writes == [n];
      assert n == 0 <==> st.c.pos == |job.file|;
    }
  }

  lemma ServerWork(st: State, job: Job)
    requires Inv(st, job) && Enabled(st, ServerHandle)
    ensures var st' := Step(st, ServerHandle, job); st'.c.pos == st.c.pos && Work(st', job) < Work(st, job)
  {
    var st' := Step(st, ServerHandle, job);
    assert st.s.completions == [st.s.completions[0]];
    if st.s.name == [] {
      OpensName(st, job);
    }
    assert !Opening(st) && !Opening(st');
    assert Ending(st) ==> Ending(st');
    assert Rank(st') < Rank(st);
    hide Inv, Step, Opening, Ending, Rank;
  }

  lemma OpensName(st: State, job: Job)
    requires Inv(st, job) && Enabled(st, ServerHandle) && st.s.name == []
    ensures Step(st, ServerHandle, job).s.name == job.name
  {
    OpenInv(st, job);
    assert Says(Step(st, ServerHandle, job), READY, job);
  }

  lemma WorkDrops(st: State, e: Event, job: Job)
    requires Inv(st, job) && Enabled(st, e)
    ensures st.c.pos <= |job.file| && Next(st, e, job).c.pos <= |job.file|
    ensures Work(Next(st, e, job), job) < Work(st, job)
  {
    InvPos(st, job);
    hide Inv, Step, Work;
    if e.ClientHandle? {
      ClientWork(st, e.size, job);
    } else if e.ServerHandle? {
      ServerWork(st, job);
    } else {
      NetworkWork(st, e, job);
    }
  }

  lemma InvPos(st: State, job: Job)
    requires Inv(st, job)
    ensures st.c.pos <= |job.file|
  {
  }

  lemma {:induction false} WorkBounds(st: State, sched: seq<Event>, job: Job)
    requires Inv(st, job)
    ensures Run(st, sched, job).c.pos <= |job.file| && st.c.pos <= |job.file|
    ensures Happened(st, sched, job) + Work(Run(st, sched, job), job) <= Work(st, job)
    decreases |sched|
  {
    hide Inv, Enabled, Next, Work;
    InvPos(st, job);
    if sched != [] {
      if Enabled(st, sched[0]) {
        InvPos(Next(st, sched[0], job), job);
        WorkDrops(st, sched[0], job);
      } else {
        NothingHappens(st, sched[0], job);
      }
      WorkBounds(Next(st, sched[0], job), sched[1..], job);
    }
  }

  lemma NothingHappens(st: State, e: Event, job: Job)
    requires Inv(st, job) && !Enabled(st, e)
    ensures Next(st, e, job) == st
  {
  }

  /** The transfer ends: no schedule has more than 8 |file| + 19 events, and when nothing can happen any more, the
      client has disconnected and the server holds the file under its name. For every file, however the reads
      cut it into chunks. */
  lemma Completion(st: State, sched: seq<Event>, job: Job)
    requires ValidJob(job) && Initial(st)
    ensures Length(st, sched, job) <= 8 * |job.file| + 19
    ensures var r := Started(st, sched, job);
            (forall e :: !Enabled(r, e)) ==> r.c.closed && r.s.file == job.file && r.s.name == job.name
  {
    InitialInv(st, job);
    WorkBounds(st, sched, job);
    var r := Run(st, sched, job);
    if !r.c.closed {
      var e := NeverStuck(r, job);
    }
  }
}
