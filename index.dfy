/** The bucketed file index of one BHD5 archive (`BHD5Data`): the parsed
    header is a sequence of buckets of file headers, a file is looked up in
    the bucket its hash selects, and both the header and the data stream are
    produced on first use and memoised. */
module ArchiveIndex {
  import opened Types

  /** One entry of a bucket. Where the file lies in the data blob is kept
      only so that reading it can depend on it. */
  datatype FileHeader = FileHeader(fileNameHash: U64, fileOffset: nat, paddedFileSize: nat)

  type Bucket = seq<FileHeader>

  /** The parsed `.bhd` header: its buckets and its salt. */
  datatype Header = Header(buckets: seq<Bucket>, salt: string)

  /** The open `.bdt` data blob. How the external parser reads (and, where
      needed, decrypts) an entry's bytes from it is left abstract. */
  datatype DataStream = DataStream(readFile: FileHeader -> Bytes)

  /** The bucket a hash selects: `hash % bucketCount`. */
  function BucketIndex(hash: U64, bucketCount: nat): (i: nat)
    requires bucketCount > 0
    ensures i < bucketCount
    ensures hash < bucketCount ==> i == hash
  {
    hash % bucketCount
  }

  /** The position of the first entry of `bucket`, in bucket order, whose
      hash is exactly `hash`, if there is one. */
  function FirstMatch(bucket: Bucket, hash: U64): (r: Option<nat>)
    ensures r.Some? ==> r.value < |bucket| && bucket[r.value].fileNameHash == hash
    ensures r.Some? ==> forall k :: 0 <= k < r.value ==> bucket[k].fileNameHash != hash
    ensures r.None? <==> forall k :: 0 <= k < |bucket| ==> bucket[k].fileNameHash != hash
  {
    if |bucket| == 0 then None
    else if bucket[0].fileNameHash == hash then Some(0)
    else
      match FirstMatch(bucket[1..], hash)
      case None => None
      case Some(i) => Some(i + 1)
  }

  /** The entry `GetFile` reads for `hash`: a division by zero when the
      header has no buckets; otherwise the first exact match in the selected
      bucket, or none. */
  function Lookup(header: Header, hash: U64): (r: Result<Option<FileHeader>>)
    ensures r.Err? <==> |header.buckets| == 0
    ensures r.Err? ==> r.error == DivideByZero
  {
    if |header.buckets| == 0 then Err(DivideByZero)
    else
      var bucket := header.buckets[BucketIndex(hash, |header.buckets|)];
      match FirstMatch(bucket, hash)
      case None => Ok(None)
      case Some(i) => Ok(Some(bucket[i]))
  }

  /** The lookup reaches an entry: the header loaded and the selected
      bucket holds the hash. Only then is the data stream needed. */
  predicate Hits(header: Result<Header>, hash: U64)
  {
    header.Ok? && Lookup(header.value, hash).Ok? && Lookup(header.value, hash).value.Some?
  }

  /** A lookup that does not fail finds the first entry of the selected
      bucket with exactly the hash, and finds nothing exactly when no entry
      of that bucket has it. */
  lemma LookupFindsFirstMatch(header: Header, hash: U64)
    requires |header.buckets| > 0
    ensures var r := Lookup(header, hash);
      var bucket := header.buckets[BucketIndex(hash, |header.buckets|)];
      && (r.value.Some? ==>
            r.value.value.fileNameHash == hash &&
            exists i :: 0 <= i < |bucket| && bucket[i] == r.value.value &&
              forall k :: 0 <= k < i ==> bucket[k].fileNameHash != hash)
      && (r.value.None? <==> forall e :: e in bucket ==> e.fileNameHash != hash)
  {
    var bucket := header.buckets[BucketIndex(hash, |header.buckets|)];
    if FirstMatch(bucket, hash).None? {
      forall e | e in bucket
        ensures e.fileNameHash != hash
      {
        var k :| 0 <= k < |bucket| && bucket[k] == e;
      }
    }
  }

  /** What `GetFile(hash)` returns, given what the two factories
      produce. */
  function Answer(header: Result<Header>, stream: Result<DataStream>, hash: U64): (r: Result<Option<Bytes>>)
    ensures header.Err? ==> r == Err(header.error)
    ensures r.Ok? && r.value.Some? ==> Hits(header, hash) && stream.Ok?
  {
    match header
    case Err(e) => Err(e)
    case Ok(h) =>
      match Lookup(h, hash)
      case Err(e) => Err(e)
      case Ok(None) => Ok(None)
      case Ok(Some(entry)) =>
        match stream
        case Err(e) => Err(e)
        case Ok(s) => Ok(Some(s.readFile(entry)))
  }

  /** The cases of the answer: the header's exception, the lookup's
      division by zero, null exactly on a miss, and on a hit the stream's
      exception or the bytes of an entry of the selected bucket that has
      exactly the hash. */
  lemma AnswerCases(header: Result<Header>, stream: Result<DataStream>, hash: U64)
    ensures var r := Answer(header, stream, hash);
      && (header.Err? ==> r == Err(header.error))
      && (r == Ok(None) <==> header.Ok? && Lookup(header.value, hash) == Ok(None))
      && (r.Err? && header.Ok? ==>
            (|header.value.buckets| == 0 && r.error == DivideByZero) ||
            (Hits(header, hash) && stream.Err? && r.error == stream.error))
      && (r.Ok? && r.value.Some? ==>
            Hits(header, hash) && stream.Ok? &&
            var bucket := header.value.buckets[BucketIndex(hash, |header.value.buckets|)];
            exists e :: e in bucket && e.fileNameHash == hash && r.value.value == stream.value.readFile(e))
  {
    if header.Ok? && Hits(header, hash) {
      var h := header.value;
      var entry := Lookup(h, hash).value.value;
      assert entry in h.buckets[BucketIndex(hash, |h.buckets|)];
    }
  }

  /** The data stream matters only on a hit: when the lookup misses or
      fails, any two streams (opened or failing) give the same answer. */
  lemma AnswerIgnoresStreamUnlessHit(header: Result<Header>, s1: Result<DataStream>, s2: Result<DataStream>, hash: U64)
    requires !Hits(header, hash)
    ensures Answer(header, s1, hash) == Answer(header, s2, hash)
  {
  }

  /** A header is well placed when every entry sits in the bucket its own
      hash selects, as the archive writer lays them out. */
  ghost predicate WellPlaced(header: Header)
  {
    forall b, k :: 0 <= b < |header.buckets| && 0 <= k < |header.buckets[b]| ==>
      b == BucketIndex(header.buckets[b][k].fileNameHash, |header.buckets|)
  }

  /** Some entry anywhere in the header carries `hash`. */
  ghost predicate Stored(header: Header, hash: U64)
  {
    exists b, k :: 0 <= b < |header.buckets| && 0 <= k < |header.buckets[b]| &&
      header.buckets[b][k].fileNameHash == hash
  }

  /** In a well-placed header the lookup misses exactly when no entry of
      the whole header carries the hash: scanning one bucket loses nothing. */
  lemma WellPlacedLookupIsComplete(header: Header, hash: U64)
    requires WellPlaced(header) && |header.buckets| > 0
    ensures Lookup(header, hash) == Ok(None) <==> !Stored(header, hash)
  {
    var n := |header.buckets|;
    var sel := BucketIndex(hash, n);
    if Stored(header, hash) {
      var b, k :| 0 <= b < n && 0 <= k < |header.buckets[b]| && header.buckets[b][k].fileNameHash == hash;
      assert b == sel;
      assert header.buckets[sel][k] in header.buckets[sel];
    } else {
      forall e | e in header.buckets[sel]
        ensures e.fileNameHash != hash
      {
        var k :| 0 <= k < |header.buckets[sel]| && header.buckets[sel][k] == e;
      }
    }
  }

  /** The lookup is not a search of the whole header: an entry that sits in
      another bucket than its hash selects is never found, even though its
      hash matches exactly. */
  lemma MisplacedEntryIsMissed()
    ensures var entry := FileHeader(3, 0, 16);
      var header := Header([[entry], []], "");
      Stored(header, 3) && Lookup(header, 3) == Ok(None)
  {
    var entry := FileHeader(3, 0, 16);
    var header := Header([[entry], []], "");
    assert header.buckets[0][0].fileNameHash == 3;
  }

  /** Two hashes that select the same bucket never stand in for each other:
      a lookup returns only an entry with exactly the hash asked for. */
  lemma CollidingHashesNeverMatch(header: Header, stored: U64, asked: U64)
    requires |header.buckets| > 0
    requires stored != asked
    requires BucketIndex(stored, |header.buckets|) == BucketIndex(asked, |header.buckets|)
    requires forall e :: e in header.buckets[BucketIndex(asked, |header.buckets|)] ==> e.fileNameHash == stored
    ensures Lookup(header, asked) == Ok(None)
  {
  }

  /** The state of an index: both lazy values and how often each factory
      has run. */
  datatype IndexState = IndexState(
    header: Option<Result<Header>>,
    fileStream: Option<Result<DataStream>>,
    headerLoads: nat,
    streamOpens: nat)

  /** The reader of one archive's index. `header` and `fileStream` are the
      two lazily evaluated values: `None` until first used, then what the
      factory produced, a value or the exception it threw, which is kept
      and rethrown on every later use as `Lazy<T>` does. The ghost counters
      record how often each factory has run. */
  class BHD5Data {
    const makeHeader: () -> Result<Header>
    const openStream: () -> Result<DataStream>
    var header: Option<Result<Header>>
    var fileStream: Option<Result<DataStream>>
    ghost var headerLoads: nat
    ghost var streamOpens: nat

    /** Each factory has run at most once, exactly when its outcome is
        present, and a present outcome is the one its factory produces. */
    ghost predicate Valid()
      reads this
    {
      && headerLoads <= 1 && (headerLoads == 1 <==> header.Some?)
      && streamOpens <= 1 && (streamOpens == 1 <==> fileStream.Some?)
      && (header.Some? ==> header.value == makeHeader())
      && (fileStream.Some? ==> fileStream.value == openStream())
    }

    /** The two lazy values and their counters, as one value. */
    ghost function State(): IndexState
      reads this
    {
      IndexState(header, fileStream, headerLoads, streamOpens)
    }

    /** What a lookup of `hash` does to the state: the header loaded once,
        the stream opened exactly when the lookup hits, and otherwise as it
        was. */
    ghost predicate LookupStep(before: IndexState, after: IndexState, hash: U64)
    {
      && after.header == Some(makeHeader()) && after.headerLoads == 1
      && (Hits(makeHeader(), hash) ==> after.fileStream == Some(openStream()) && after.streamOpens == 1)
      && (!Hits(makeHeader(), hash) ==>
            after.fileStream == before.fileStream && after.streamOpens == before.streamOpens)
    }

    /** The constructor stores both factories and runs neither. */
    constructor (makeHeader: () -> Result<Header>, openStream: () -> Result<DataStream>)
      ensures Valid()
      ensures this.makeHeader == makeHeader && this.openStream == openStream
      ensures header == None && fileStream == None
      ensures headerLoads == 0 && streamOpens == 0
    {
      this.makeHeader := makeHeader;
      this.openStream := openStream;
      header := None;
      fileStream := None;
      headerLoads := 0;
      streamOpens := 0;
    }

    /** `_header.Value`: runs the header factory on first use only; a
        failed first run fails every use. */
    method HeaderValue() returns (h: Result<Header>)
      requires Valid()
      modifies this
      ensures Valid()
      ensures h == makeHeader() && header == Some(h)
      ensures headerLoads == 1 && (old(header).Some? ==> h == old(header).value)
      ensures fileStream == old(fileStream) && streamOpens == old(streamOpens)
    {
      if header.None? {
        header := Some(makeHeader());
        headerLoads := headerLoads + 1;
      }
      h := header.value;
    }

    /** `_fileStream.Value`: opens the data stream on first use only; a
        failed first open fails every use. */
    method StreamValue() returns (s: Result<DataStream>)
      requires Valid()
      modifies this
      ensures Valid()
      ensures s == openStream() && fileStream == Some(s)
      ensures streamOpens == 1 && (old(fileStream).Some? ==> s == old(fileStream).value)
      ensures header == old(header) && headerLoads == old(headerLoads)
    {
      if fileStream.None? {
        fileStream := Some(openStream());
        streamOpens := streamOpens + 1;
      }
      s := fileStream.value;
    }

    /** `GetFile(hash)`: scans the selected bucket in order and reads the
        first exact match. The header is loaded (once); the data stream is
        opened only on a match, so a miss leaves it as it was. */
    method GetFile(hash: U64) returns (r: Result<Option<Bytes>>)
      requires Valid()
      modifies this
      ensures Valid()
      ensures r == Answer(makeHeader(), openStream(), hash)
      ensures LookupStep(old(State()), State(), hash)
    {
      var loaded := HeaderValue();
      if loaded.Err? {
        return Err(loaded.error);
      }
      var h := loaded.value;
      if |h.buckets| == 0 {
        return Err(DivideByZero);
      }
      var bucket := h.buckets[hash % |h.buckets|];
      var i := 0;
      while i < |bucket|
        invariant 0 <= i <= |bucket|
        invariant forall k :: 0 <= k < i ==> bucket[k].fileNameHash != hash
        invariant Valid() && header == Some(loaded) && headerLoads == 1
        invariant fileStream == old(fileStream) && streamOpens == old(streamOpens)
      {
        if bucket[i].fileNameHash == hash {
          assert FirstMatch(bucket, hash) == Some(i);
          var stream := StreamValue();
          if stream.Err? {
            return Err(stream.error);
          }
          return Ok(Some(stream.value.readFile(bucket[i])));
        }
        i := i + 1;
      }
      return Ok(None);
    }

    /** `GetSalt()`: the loaded header's salt, unchanged, or the header's
        exception. */
    method GetSalt() returns (salt: Result<string>)
      requires Valid()
      modifies this
      ensures Valid()
      ensures makeHeader().Ok? ==> salt == Ok(makeHeader().value.salt)
      ensures makeHeader().Err? ==> salt == Err(makeHeader().error)
      ensures header == Some(makeHeader()) && headerLoads == 1
      ensures fileStream == old(fileStream) && streamOpens == old(streamOpens)
    {
      var h := HeaderValue();
      if h.Err? {
        return Err(h.error);
      }
      salt := Ok(h.value.salt);
    }
  }
}
