/** The values that travel between the driver and the server. */
module WireTypes {
  import opened Results

  type Byte = b: int | 0 <= b < 256
  type Bytes = seq<Byte>
  type BlobId = int
  type Handle = int

  datatype Option<+T> = None | Some(value: T)

  datatype Error =
    | Refused(gdsCode: int)   // the server's own decision, any request may meet it
    | BadHandle               // the driver named a handle the server does not know
    | NoCursor                // a fetch on a statement whose execute failed
    | UnexpectedOp            // a packet of the wrong kind
    | SourceFailed            // the caller's blob source threw
    | RowFailed(index: nat)   // a batch row was rejected

  /** What an awaited operation comes back with. */
  type Outcome<+T> = Result<T, Error>

  /** The body of an op_response: its values, or the error of its status vector. */
  datatype Response = Good(handle: Handle, oid: BlobId, data: Bytes) | Bad(error: Error)

  datatype Request =
    | OpenBlob(tx: Handle, id: BlobId)
    | GetSegment(blob: Handle, bufferLength: nat)
    | CloseBlob(blob: Handle)
    | CreateBlob(tx: Handle)
    | BatchSegments(blob: Handle, framed: Bytes)
    | Execute(stmt: Handle, tx: Handle)
    | Execute2(stmt: Handle, tx: Handle)
    | Fetch(stmt: Handle, count: nat)
    | InfoSql(stmt: Handle)
    | AllocateStatement
    | PrepareStatement(tx: Handle)
    | FreeStatement(stmt: Handle)
    | BatchCreate(stmt: Handle)
    | BatchRegblob(stmt: Handle, id: BlobId)
    | BatchMsg(stmt: Handle, rows: seq<Bytes>)
    | BatchExec(stmt: Handle, tx: Handle)
    | BatchRelease(stmt: Handle)

  /** Per-row outcome of a batch: update counts, and the rows that failed. */
  datatype Completion = Completion(updateCounts: seq<int>, failed: seq<nat>)

  datatype Packet =
    | Dummy
    | InlineBlob(tx: Handle, id: BlobId, payload: Bytes)
    | Resp(response: Response)
    | FetchRow(row: int)
    | FetchEnd(eof: bool)
    | SqlResp(procRow: Option<int>)
    | BatchState(completion: Completion)

  /** Keep-alives and volunteered inline blobs: packets that answer no request. */
  predicate Noise(p: Packet) { p.Dummy? || p.InlineBlob? }

  function Min(a: int, b: int): (r: int)
    ensures r <= a && r <= b && (r == a || r == b)
  {
    if a <= b then a else b
  }

  function Max(a: int, b: int): (r: int)
    ensures r >= a && r >= b && (r == a || r == b)
  {
    if a >= b then a else b
  }

  lemma Assoc<T>(a: seq<T>, b: seq<T>, c: seq<T>)
    ensures (a + b) + c == a + (b + c)
  {
  }

  function Flatten(parts: seq<Bytes>): Bytes
  {
    if parts == [] then [] else parts[0] + Flatten(parts[1..])
  }

  lemma {:induction false} FlattenAppend(parts: seq<Bytes>, more: seq<Bytes>)
    ensures Flatten(parts + more) == Flatten(parts) + Flatten(more)
  {
    if parts == [] {
      assert parts + more == more;
    } else {
      FlattenAppend(parts[1..], more);
      assert (parts + more)[1..] == parts[1..] + more;
      Assoc(parts[0], Flatten(parts[1..]), Flatten(more));
    }
  }

  lemma FlattenPush(parts: seq<Bytes>, b: Bytes)
    ensures Flatten(parts + [b]) == Flatten(parts) + b
  {
    FlattenAppend(parts, [b]);
    assert Flatten([b]) == b + Flatten([]);
  }
}
