/** `RigctldClient` as the object it is: the socket field, the growing receive buffer
    and the order in which failures close the link (radio/rigctld.py). */
module RigctldClient {
  import opened Prelude
  import opened Text
  import opened Utf8
  import opened Rigctld

  class Client {
    var sock: Socket

    constructor ()
      ensures sock.None?
    {
      sock := None;
    }

    method ConnectLocked(connects: bool) returns (connected: bool)
      modifies this
      ensures connected == (old(sock).Some? || connects)
      ensures sock == if old(sock).Some? || !connects then old(sock) else Some([])
    {
      if sock.Some? {
        return true;
      }
      if !connects {
        return false;
      }
      sock := Some([]);
      return true;
    }

    method CloseLocked()
      modifies this
      ensures sock.None?
    {
      sock := None;
    }

    /** `_read_until_rprt`. */
    method ReadUntilRprt(recvs: seq<Read>) returns (r: Reading)
      requires sock.Some?
      modifies this
      ensures sock.Some? && (r, sock.value) == ReadReply([], old(sock).value, recvs)
    {
      hide Complete, Count;
      var buf: seq<byte> := [];
      var i := 0;
      while i < |recvs|
        invariant i <= |recvs| && sock.Some?
        invariant ReadReply(buf, sock.value, recvs[i..]) == ReadReply([], old(sock).value, recvs)
      {
        assert recvs[i..][1..] == recvs[i + 1..];
        match recvs[i] {
          case PeerClosed => return Faulted(Broken);
          case Failed(f) => return Faulted(f);
          case Chunk(n) =>
            if sock.value == [] {
              return Faulted(TimedOut);
            }
            var k := ChunkSize(n, |sock.value|);
            buf := buf + sock.value[..k];
            sock := Some(sock.value[k..]);
            if |buf| > MAX_RESPONSE_BYTES {
              return Oversized;
            }
            if Count(buf, NL) > MAX_RESPONSE_LINES {
              return Oversized;
            }
            if Complete(buf) {
              return Whole(buf);
            }
        }
        i := i + 1;
      }
      return Faulted(TimedOut);
    }

    /** `_send_recv_locked`, the socket being open. */
    method SendRecvLocked(command: string, a: Attempt) returns (o: Outcome)
      requires sock.Some?
      modifies this
      ensures (o, sock) == Try(old(sock), command, a)
    {
      hide ReadReply, Interpret;
      sock := Some(sock.value + a.reply);
      if a.sendFault.Some? {
        return Broke(a.sendFault.value);
      }
      var r := ReadUntilRprt(a.recvs);
      match r {
        case Whole(buf) => return Answered(Interpret(buf, command));
        case Oversized => return Answered(Malformed);
        case Faulted(f) => return Broke(f);
      }
    }

    /** `_send_recv`: which failures close the socket, and the one retry. */
    method SendRecv(command: string, first: Attempt, second: Attempt) returns (r: Result)
      modifies this
      ensures (r, sock) == Transact(old(sock), command, first, second)
    {
      hide ReadReply, Interpret;
      var connected := ConnectLocked(first.connects);
      if !connected {
        return ConnectionError;
      }
      var o := SendRecvLocked(command, first);
      if o.Answered? {
        if o.answer.Malformed? {
          CloseLocked();
        }
        return ResultOf(o.answer);
      }
      CloseLocked();
      if o.fault != Broken {
        return ConnectionError;
      }
      connected := ConnectLocked(second.connects);
      if !connected {
        return ConnectionError;
      }
      o := SendRecvLocked(command, second);
      if o.Broke? {
        CloseLocked();
        return ConnectionError;
      }
      return ResultOf(o.answer);
    }
  }
}
