/** The handlers of client.c and server.c in their own form: event handlers that update a context in place. Each
    is proved to do what the protocol of module FileTransfer has that side do. */
module FileTransferHandlers {
  import opened FileTransfer

  class ClientContext {
    const job: Job
    const buffer: array<byte>
    var pos: nat
    var msg: MsgId
    var peer: bool
    var writes: seq<nat>
    var posted: nat
    var completions: nat
    var owes: bool
    var closed: bool

    ghost predicate Valid()
      reads this, buffer
    {
      ValidJob(job) && buffer.Length == BUFFER_SIZE && pos <= |job.file|
    }

    ghost function Value(): Client
      reads this, buffer
    {
      Client(buffer[..], pos, msg, peer, writes, posted, completions, owes, closed)
    }

    /** on_pre_conn */
    constructor (job: Job)
      requires ValidJob(job)
      ensures Valid() && fresh(buffer) && this.job == job
      ensures Value() == Client(Value().buffer, 0, INVALID, false, [], 1, 0, false, false)
    {
      this.job := job;
      buffer := new byte[BUFFER_SIZE];
      pos, msg, peer, writes := 0, INVALID, false, [];
      posted, completions, owes, closed := 1, 0, false, false;
    }

    /** Bytes from `data` into the start of the buffer, as strcpy and read do. */
    method CopyIn(data: seq<byte>)
      requires Valid() && |data| <= BUFFER_SIZE
      modifies buffer
      ensures buffer[..] == Overwrite(old(buffer[..]), data)
    {
      for i := 0 to |data|
        invariant buffer[..i] == data[..i]
        invariant buffer[i..] == old(buffer[i..])
      {
        buffer[i] := data[i];
        assert buffer[..i + 1] == buffer[..i] + [data[i]];
        assert buffer[i + 1..] == buffer[i..][1..];
      }
      assert buffer[..] == buffer[..|data|] + buffer[|data|..];
    }

    method WriteRemote(len: nat)
      requires Valid()
      modifies this`writes
      ensures Value() == old(Value()).(writes := old(writes) + [len])
    {
      writes := writes + [len];
    }

    method SendFileName()
      requires Valid()
      modifies this, buffer
      ensures Valid() && Value() == FileTransfer.SendFileName(old(Value()), job)
    {
      CopyIn(job.name + [0]);
      WriteRemote(|job.name| + 1);
    }

    method SendNextChunk(size: nat)
      requires Valid()
      modifies this, buffer
      ensures Valid() && Value() == FileTransfer.SendNextChunk(old(Value()), job, size)
    {
      var n := ReadSize(|job.file| - pos, size);
      CopyIn(job.file[pos..pos + n]);
      pos := pos + n;
      WriteRemote(n);
    }

    /** on_completion, up to its post_receive; it returns whether that is still to come. */
    method OnCompletion(size: nat) returns (post: bool)
      requires Valid() && completions > 0
      modifies this, buffer
      ensures Valid() && Value() == ClientCompletion(old(Value()), job, size) && post == owes
    {
      completions := completions - 1;
      owes := msg != DONE;
      post := owes;
      if msg == MR {
        peer := true;
        SendFileName();
      } else if msg == READY {
        SendNextChunk(size);
      } else if msg == DONE {
        closed := true;
      }
    }

    method PostReceive()
      requires Valid()
      modifies this
      ensures Valid() && Value() == old(Value()).(posted := old(posted) + 1, owes := false)
    {
      posted, owes := posted + 1, false;
    }
  }

  class ServerContext {
    const buffer: array<byte>
    var fileName: seq<byte>
    var file: seq<byte>
    var msg: MsgId
    var sends: nat
    var posted: nat
    var completions: seq<nat>
    var connected: bool

    ghost predicate Valid()
      reads this, buffer
    {
      buffer.Length == BUFFER_SIZE && forall i :: 0 <= i < |completions| ==> completions[i] <= BUFFER_SIZE
    }

    ghost function Value(): Server
      reads this, buffer
    {
      Server(buffer[..], fileName, file, msg, sends, posted, completions, connected)
    }

    /** on_pre_conn */
    constructor ()
      ensures Valid() && fresh(buffer)
      ensures Value() == Server(Value().buffer, [], [], INVALID, 0, 1, [], false)
    {
      buffer := new byte[BUFFER_SIZE];
      fileName, file, msg, sends, posted, completions, connected := [], [], INVALID, 0, 1, [], false;
    }

    method SendMessage(id: MsgId)
      modifies this`msg, this`sends
      ensures Value() == FileTransfer.SendMessage(old(Value()), id)
    {
      msg := id;
      sends := sends + 1;
    }

    /** on_connection */
    method OnConnection()
      requires Valid()
      modifies this
      ensures Valid() && Value() == FileTransfer.SendMessage(old(Value()).(connected := true), MR)
    {
      connected := true;
      SendMessage(MR);
    }

    /** The name up to its terminating zero, which on_completion itself puts in the last place. */
    method CopyName(size: nat) returns (name: seq<byte>)
      requires Valid() && 0 < size <= BUFFER_SIZE
      ensures name == CString(buffer[..size - 1])
    {
      name := [];
      var i := 0;
      while i < size - 1 && buffer[i] != 0
        invariant 0 <= i <= size - 1
        invariant name + CString(buffer[i..size - 1]) == CString(buffer[..size - 1])
      {
        assert buffer[i..size - 1] == [buffer[i]] + buffer[i + 1..size - 1];
        assert name + ([buffer[i]] + CString(buffer[i + 1..size - 1]))
            == (name + [buffer[i]]) + CString(buffer[i + 1..size - 1]);
        name := name + [buffer[i]];
        i := i + 1;
      }
      assert CString(buffer[i..size - 1]) == [];
      assert name + [] == name;
    }

    /** on_completion for a write with immediate data. */
    method OnCompletion()
      requires Valid() && completions != []
      modifies this
      ensures Valid() && Value() == ServerCompletion(old(Value()))
    {
      var size := completions[0];
      completions := completions[1..];
      if size == 0 {
        SendMessage(DONE);
      } else if fileName != [] {
        file := file + buffer[..size];
        posted := posted + 1;
        SendMessage(READY);
      } else {
        fileName := CopyName(size);
        assert buffer[..][..size - 1] == buffer[..size - 1];
        posted := posted + 1;
        SendMessage(READY);
      }
    }
  }
}
