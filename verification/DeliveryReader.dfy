/** The frame-by-frame reading in the delivery system adds up to what the client's wait for an answer does. */
module DeliveryReader {
  import opened AgentClient
  import opened Delivery
  import opened Protocol
  import opened Sequences

  /** `n` reading steps of the Controller on one connection. */
  function Reads(host: string, conn: Connection, n: nat): Option<Connection> {
    if n == 0 then Some(conn)
    else
      match Reads(host, conn, n - 1)
      case None => None
      case Some(c) => if CanRead(c) then ReadStep(host, c) else None
  }

  function WithUnrelated(phase: Phase, frames: seq<Frame>): Phase {
    match phase
    case AwaitPage(id, _) => AwaitPage(id, frames)
    case AwaitOpen(id, _) => AwaitOpen(id, frames)
    case AwaitAck(id, _, streaming) => AwaitAck(id, frames, streaming)
    case _ => phase
  }

  function Frames(conn: Connection): seq<Frame> {
    conn.pending + conn.toController
  }

  /** The connection after `n` frames have been set aside. */
  function Waiting(conn: Connection, n: nat): Connection
    requires n <= |Frames(conn)|
  {
    conn.(pending := PendingAfter(conn.pending, n),
          toController := WireAfter(conn.pending, conn.toController, n),
          phase := WithUnrelated(conn.phase, Frames(conn)[..n]))
  }

  lemma WaitingReads(conn: Connection, n: nat)
    requires AwaitedId(conn.phase).Some? && n < |Frames(conn)|
    ensures CanRead(Waiting(conn, n))
    ensures NextFrame(Waiting(conn, n)) == Frames(conn)[n]
    ensures DropFrame(Waiting(conn, n)) == Waiting(conn, n).(
              pending := PendingAfter(conn.pending, n + 1),
              toController := WireAfter(conn.pending, conn.toController, n + 1))
  {
    FrameTaken(conn.pending, conn.toController, n);
  }

  lemma OneSetAside(host: string, conn: Connection, id: RequestId, n: nat)
    requires AwaitedId(conn.phase) == Some(id) && n < |Frames(conn)| && Frames(conn)[n].requestId != id
    ensures CanRead(Waiting(conn, n)) && ReadStep(host, Waiting(conn, n)) == Some(Waiting(conn, n + 1))
  {
    WaitingReads(conn, n);
    assert Frames(conn)[..n + 1] == Frames(conn)[..n] + [Frames(conn)[n]];
  }

  lemma NoneSetAside(conn: Connection)
    requires AwaitedId(conn.phase).Some? && Unrelated(conn.phase) == []
    ensures Waiting(conn, 0) == conn
  {
  }

  lemma ReadsNext(host: string, conn: Connection, n: nat, c: Connection)
    requires Reads(host, conn, n) == Some(c) && CanRead(c)
    ensures Reads(host, conn, n + 1) == ReadStep(host, c)
  {
  }

  /** Frames that do not answer the request are set aside in the order they are read. */
  lemma {:induction false} ReadsSetAside(host: string, conn: Connection, id: RequestId, n: nat)
    requires AwaitedId(conn.phase) == Some(id) && Unrelated(conn.phase) == [] && PassedOver(Frames(conn), n, id)
    ensures Reads(host, conn, n) == Some(Waiting(conn, n))
    decreases n
  {
    if n == 0 {
      NoneSetAside(conn);
    } else {
      ReadsSetAside(host, conn, id, n - 1);
      OneSetAside(host, conn, id, n - 1);
      ReadsNext(host, conn, n - 1, Waiting(conn, n - 1));
    }
  }

  /** Reading until the answer leaves the frames exactly as the client's wait for it does. */
  lemma ReadsAreAwaitAnswer(host: string, conn: Connection, id: RequestId)
    requires AwaitedId(conn.phase) == Some(id) && Unrelated(conn.phase) == []
    requires StopAt(Frames(conn), id) < |Frames(conn)| && Frames(conn)[StopAt(Frames(conn), id)].requestId == id
    requires AfterAnswer(host, conn.phase, Frames(conn)[StopAt(Frames(conn), id)].payload).Some?
    ensures var k := StopAt(Frames(conn), id);
            Reads(host, conn, k + 1) ==
            Some(conn.(pending := PendingAfter(conn.pending, k + 1) + Frames(conn)[..k],
                       toController := WireAfter(conn.pending, conn.toController, k + 1),
                       phase := AfterAnswer(host, conn.phase, Frames(conn)[k].payload).value))
  {
    var k := StopAt(Frames(conn), id);
    ReadsSetAside(host, conn, id, k);
    WaitingReads(conn, k);
    ReadsNext(host, conn, k, Waiting(conn, k));
  }
}
