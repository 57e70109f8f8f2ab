/** What was written is what is read (protocol/blob.ts), however both sides cut it. */
module BlobRoundTrip {
  import opened Results
  import opened WireTypes
  import opened Server
  import opened Wire
  import opened BlobProtocol
  import opened BlobUpload

  /**
   * Write a source, read the blob back: for every chunking of the source, every
   * segment size of either side and every way the server splits the blob, the
   * bytes are the source's.
   */
  method WriteThenRead(w: WireConnection, tx: Handle, source: Source, writeSize: int, readSize: int)
    returns (written: Outcome<BlobId>, read: Outcome<Bytes>)
    requires w.InSync()
    modifies w
    ensures w.Idle() && w.Owed() == w.deferredResponses + (w.lost - old(w.lost))
    ensures written.Returned? && read.Returned? ==> read.value == Flatten(source.chunks)
    ensures written.Thrown? ==> read == Thrown(written.error)
    ensures written.Returned? && read.Thrown? && w.lost == old(w.lost) ==> read.error.Refused?
  {
    hide WireConnection.Idle;
    ghost var segs, h;
    written, segs, h := WriteBlobStream(w, tx, source, writeSize);
    if written.Thrown? { return written, Thrown(written.error); }
    read, h := ReadBlob(w, tx, written.value, readSize);
  }
}
