/**
 * The profiler's background consumer: records are taken from the channel one
 * at a time and appended to a batch; whenever the batch reaches the buffer
 * size it is written to the output file, which the write replaces wholesale,
 * and the batch is emptied whether or not the write succeeded. In the
 * program nothing ever sends on that channel; the consumer is modelled over
 * whatever sequence of records a producer would deliver.
 */
module Recorder {
  import opened Wrappers
  import opened Records

  /** The batch size that triggers a write (also the channel's capacity). */
  const BufferSize: nat := 100

  /**
   * The file system as the consumer sees it: the records each file holds.
   * The JSON encoding of the records is abstracted away.
   */
  class FileSystem {
    var files: map<string, seq<RequestInfo>>

    constructor (initial: map<string, seq<RequestInfo>>)
      ensures files == initial
    {
      files := initial;
    }
  }

  /**
   * Writes a batch to a file. `diskAccepts` stands for the outcome of the
   * operating system's write, which the model does not see. A successful
   * write replaces whatever the file held by exactly the batch (creating the
   * file if needed); a failed one leaves every file as it was.
   */
  method WriteRequestInfoToFile(fs: FileSystem, requestInfos: seq<RequestInfo>, fileName: string,
                                diskAccepts: bool)
    returns (ok: bool)
    modifies fs
    ensures ok == diskAccepts
    ensures fs.files == if ok then old(fs.files)[fileName := requestInfos] else old(fs.files)
  {
    ok := diskAccepts;
    if ok {
      fs.files := fs.files[fileName := requestInfos];
    }
  }

  /** The records of a sequence of batches, one batch after the other. */
  function Flatten(batches: seq<seq<RequestInfo>>): seq<RequestInfo>
    decreases |batches|
  {
    if batches == [] then [] else batches[0] + Flatten(batches[1..])
  }

  lemma {:induction false} FlattenSnoc(batches: seq<seq<RequestInfo>>, last: seq<RequestInfo>)
    ensures Flatten(batches + [last]) == Flatten(batches) + last
    decreases |batches|
  {
    if batches == [] {
      assert [] + [last] == [last];
    } else {
      assert (batches + [last])[1..] == batches[1..] + [last];
      FlattenSnoc(batches[1..], last);
    }
  }

  /** The full batches the consumer writes for a sequence of received records, in order. */
  function Batches(items: seq<RequestInfo>): seq<seq<RequestInfo>>
    decreases |items|
  {
    if |items| < BufferSize then [] else [items[..BufferSize]] + Batches(items[BufferSize..])
  }

  /** The records still waiting in the batch after a sequence of received records. */
  function Pending(items: seq<RequestInfo>): seq<RequestInfo>
    decreases |items|
  {
    if |items| < BufferSize then items else Pending(items[BufferSize..])
  }

  /** All batches hold exactly BufferSize records. */
  ghost predicate AllFull(batches: seq<seq<RequestInfo>>)
  {
    forall k :: 0 <= k < |batches| ==> |batches[k]| == BufferSize
  }

  /** Full batches followed by fewer than BufferSize records are cut back into those batches and that rest. */
  lemma {:induction false} BatchesOfFlatten(batches: seq<seq<RequestInfo>>, rest: seq<RequestInfo>)
    requires AllFull(batches) && |rest| < BufferSize
    ensures Batches(Flatten(batches) + rest) == batches
    ensures Pending(Flatten(batches) + rest) == rest
    decreases |batches|
  {
    if batches != [] {
      var items := Flatten(batches) + rest;
      var tail := Flatten(batches[1..]) + rest;
      assert items == batches[0] + tail;
      assert items[..BufferSize] == batches[0];
      assert items[BufferSize..] == tail;
      BatchesOfFlatten(batches[1..], rest);
      assert [batches[0]] + batches[1..] == batches;
    }
  }

  /** Batches and the pending rest partition the received records, in arrival order. */
  lemma {:induction false} BatchesPartition(items: seq<RequestInfo>)
    ensures AllFull(Batches(items)) && |Pending(items)| < BufferSize
    ensures Flatten(Batches(items)) + Pending(items) == items
    decreases |items|
  {
    if |items| >= BufferSize {
      BatchesPartition(items[BufferSize..]);
      var bs := Batches(items);
      assert bs[1..] == Batches(items[BufferSize..]);
      assert items[..BufferSize] + items[BufferSize..] == items;
    }
  }

  /** n received records give n / BufferSize writes and leave n % BufferSize records pending. */
  lemma {:induction false} BatchesCount(items: seq<RequestInfo>)
    ensures |Batches(items)| == |items| / BufferSize
    ensures |Pending(items)| == |items| % BufferSize
    decreases |items|
  {
    if |items| >= BufferSize {
      BatchesCount(items[BufferSize..]);
    }
  }

  /** The k-th write receives records k * BufferSize up to (k + 1) * BufferSize, in arrival order. */
  lemma {:induction false} BatchAt(items: seq<RequestInfo>, k: nat)
    requires k < |Batches(items)|
    ensures (k + 1) * BufferSize <= |items|
    ensures Batches(items)[k] == items[k * BufferSize..(k + 1) * BufferSize]
    decreases k
  {
    if k > 0 {
      var rest := items[BufferSize..];
      BatchAt(rest, k - 1);
      assert Batches(items)[k] == Batches(rest)[k - 1];
      assert rest[(k - 1) * BufferSize..k * BufferSize] == items[k * BufferSize..(k + 1) * BufferSize];
    }
  }

  /** A write follows the i-th received record exactly when that record completes a batch. */
  lemma FlushAfterRecord(items: seq<RequestInfo>, i: nat)
    requires i < |items|
    ensures |Batches(items[..i + 1])| == |Batches(items[..i])| + (if (i + 1) % BufferSize == 0 then 1 else 0)
  {
    BatchesCount(items[..i + 1]);
    BatchesCount(items[..i]);
  }

  /**
   * The files after the consumer attempts to write `batches` to `fileName`,
   * the k-th attempt succeeding exactly when diskAccepts(k).
   */
  function StoreAfter(files: map<string, seq<RequestInfo>>, fileName: string,
                      batches: seq<seq<RequestInfo>>, diskAccepts: nat -> bool)
    : map<string, seq<RequestInfo>>
    decreases |batches|
  {
    if batches == [] then files
    else
      var before := StoreAfter(files, fileName, batches[..|batches| - 1], diskAccepts);
      if diskAccepts(|batches| - 1) then before[fileName := batches[|batches| - 1]] else before
  }

  /** The index of the last successful write among the first n attempts. */
  function LastAccepted(n: nat, diskAccepts: nat -> bool): (r: Option<nat>)
    ensures r.Some? ==> r.value < n && diskAccepts(r.value)
    ensures r.Some? ==> forall j :: r.value < j < n ==> !diskAccepts(j)
    ensures r.None? <==> forall j :: 0 <= j < n ==> !diskAccepts(j)
    decreases n
  {
    if n == 0 then None
    else if diskAccepts(n - 1) then Some(n - 1)
    else LastAccepted(n - 1, diskAccepts)
  }

  /**
   * Overwrite semantics: after a run of writes the file holds exactly the
   * batch of the last successful write, every earlier batch being discarded;
   * with no successful write nothing changed. Other files are never touched.
   */
  lemma {:induction false} StoreHoldsLastAcceptedBatch(files: map<string, seq<RequestInfo>>, fileName: string,
                                                      batches: seq<seq<RequestInfo>>, diskAccepts: nat -> bool)
    ensures StoreAfter(files, fileName, batches, diskAccepts) ==
            match LastAccepted(|batches|, diskAccepts)
            case None => files
            case Some(k) => files[fileName := batches[k]]
    decreases |batches|
  {
    if batches != [] {
      var front := batches[..|batches| - 1];
      StoreHoldsLastAcceptedBatch(files, fileName, front, diskAccepts);
      if !diskAccepts(|batches| - 1) {
        assert LastAccepted(|batches|, diskAccepts) == LastAccepted(|front|, diskAccepts);
        match LastAccepted(|front|, diskAccepts)
        case None =>
        case Some(k) => assert front[k] == batches[k];
      }
    }
  }

  /**
   * With at least two batches' worth of records and every write succeeding,
   * the file ends up holding only the last full batch: BufferSize records,
   * fewer than were received.
   */
  lemma OverwriteDiscardsHistory(files: map<string, seq<RequestInfo>>, fileName: string,
                                 items: seq<RequestInfo>)
    requires |items| >= 2 * BufferSize
    ensures var n := |items| / BufferSize;
            var stored := StoreAfter(files, fileName, Batches(items), (k: nat) => true);
            n >= 2 && fileName in stored &&
            stored[fileName] == items[(n - 1) * BufferSize..n * BufferSize] &&
            |stored[fileName]| == BufferSize < |items|
  {
    var n := |items| / BufferSize;
    var all := (k: nat) => true;
    BatchesCount(items);
    StoreHoldsLastAcceptedBatch(files, fileName, Batches(items), all);
    assert LastAccepted(n, all) == Some(n - 1);
    BatchAt(items, n - 1);
  }

  /**
   * The consumer loop over a sequence of delivered records, in order.
   * `diskAccepts(k)` is the outcome of the k-th write. Returns the batch
   * still pending, not yet written, after the delivered records, and, as
   * ghost, the batches handed to the writer.
   */
  method ProcessBufferedRequests(fs: FileSystem, fileName: string, channel: seq<RequestInfo>,
                                 diskAccepts: nat -> bool)
    returns (unflushed: seq<RequestInfo>, ghost written: seq<seq<RequestInfo>>)
    modifies fs
    ensures written == Batches(channel)
    ensures unflushed == Pending(channel) && |unflushed| < BufferSize
    ensures fs.files == StoreAfter(old(fs.files), fileName, written, diskAccepts)
  {
    var requestInfos: seq<RequestInfo> := [];
    written := [];
    var i, writes := 0, 0;
    while i < |channel|
      invariant 0 <= i <= |channel|
      invariant |requestInfos| < BufferSize
      invariant AllFull(written) && writes == |written|
      invariant channel[..i] == Flatten(written) + requestInfos
      invariant written == Batches(channel[..i]) && requestInfos == Pending(channel[..i])
      invariant fs.files == StoreAfter(old(fs.files), fileName, written, diskAccepts)
    {
      var reqInfo := channel[i];
      assert channel[..i + 1] == channel[..i] + [reqInfo];
      requestInfos := requestInfos + [reqInfo];
      i := i + 1;
      if |requestInfos| >= BufferSize {
        var ok := WriteRequestInfoToFile(fs, requestInfos, fileName, diskAccepts(writes));
        FlattenSnoc(written, requestInfos);
        assert (written + [requestInfos])[..|written|] == written;
        written := written + [requestInfos];
        requestInfos := [];
        writes := writes + 1;
      }
      BatchesOfFlatten(written, requestInfos);
    }
    assert channel[..i] == channel;
    unflushed := requestInfos;
  }
}
