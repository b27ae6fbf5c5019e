/** The socket the client talks through, as a scripted stand-in: the peer's
    replies are a queue of chunks (an empty chunk is the peer closing the
    connection), and every frame the client sends is logged. */
module Transport {
  import opened Bytes

  /** Every byte the peer delivers before it closes: the chunks up to the
      first empty one, concatenated. How the bytes are chunked does not
      matter to any reader that asks for an exact count. */
  function Available(inbox: seq<seq<byte>>): (a: seq<byte>)
    ensures inbox != [] && inbox[0] != [] ==> |a| >= |inbox[0]|
  {
    if inbox == [] || inbox[0] == [] then [] else inbox[0] + Available(inbox[1..])
  }

  class Channel {
    /** Chunks still to be delivered by the peer, in order. */
    var inbox: seq<seq<byte>>
    /** Frames handed to `sendall`, oldest first. */
    var sent: seq<seq<byte>>
    /** Whether `connect` has succeeded. */
    var connected: bool
    /** Whether `close` has not yet been called. */
    var open: bool
    /** Whether the peer accepts the connection. */
    const reachable: bool

    constructor (script: seq<seq<byte>>, reachable: bool)
      ensures inbox == script && sent == [] && !connected && open
      ensures this.reachable == reachable
    {
      inbox := script;
      sent := [];
      connected := false;
      open := true;
      this.reachable := reachable;
    }

    /** `socket.connect`: succeeds exactly when the peer is reachable. */
    method Connect() returns (ok: bool)
      modifies this`connected
      ensures ok == reachable && connected == (old(connected) || ok)
    {
      ok := reachable;
      connected := connected || ok;
    }

    /** `socket.recv(n)`: at most `n` bytes of the next chunk; what is left
        of that chunk stays queued. Once the peer has closed, every call
        returns nothing. */
    method Recv(n: nat) returns (chunk: seq<byte>)
      requires n > 0
      modifies this`inbox
      ensures old(inbox) == [] || old(inbox)[0] == [] ==> chunk == [] && inbox == old(inbox)
      ensures old(inbox) != [] && 0 < |old(inbox)[0]| <= n ==>
                chunk == old(inbox)[0] && inbox == old(inbox)[1..]
      ensures old(inbox) != [] && n < |old(inbox)[0]| ==>
                chunk == old(inbox)[0][..n] && inbox == [old(inbox)[0][n..]] + old(inbox)[1..]
      ensures 0 < |chunk| <= n <==> Available(old(inbox)) != []
      ensures Available(old(inbox)) == chunk + Available(inbox)
    {
      if inbox == [] || inbox[0] == [] {
        chunk := [];
      } else if |inbox[0]| <= n {
        chunk := inbox[0];
        inbox := inbox[1..];
      } else {
        chunk := inbox[0][..n];
        var rest := [inbox[0][n..]] + inbox[1..];
        assert rest[1..] == inbox[1..];
        assert chunk + inbox[0][n..] == inbox[0];
        inbox := rest;
      }
    }

    /** `socket.sendall`: the frame is appended to the log. */
    method SendAll(frame: seq<byte>)
      modifies this`sent
      ensures sent == old(sent) + [frame]
    {
      sent := sent + [frame];
    }

    /** `socket.close`. */
    method Close()
      modifies this`open
      ensures !open
    {
      open := false;
    }
  }
}
