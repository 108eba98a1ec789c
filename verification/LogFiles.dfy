/** What the log directory should hold: for every hour the buffers of that hour, in
    order, except those that came more than an hour late. */
module LogFiles {
  import opened Collections

  const SECS_PER_HOUR := 3600

  /** C++'s `%`: the remainder has the sign of the dividend. */
  function Remainder(a: int, b: int): int
    requires b > 0
  {
    if a >= 0 then a % b else -((-a) % b)
  }

  /** `align_to_hour` */
  function AlignToHour(ts: int): int {
    ts - Remainder(ts, SECS_PER_HOUR)
  }

  lemma AlignedHourIsFull(ts: int)
    ensures AlignToHour(ts) % 3600 == 0
  {
    if ts < 0 {
      var q := (-ts) / SECS_PER_HOUR;
      assert AlignToHour(ts) == SECS_PER_HOUR * -q;
    }
  }

  /** Aligned times and times after the epoch. */
  predicate Alignable(ts: int) {
    ts >= 0 || ts % 3600 == 0
  }

  /** Truncating division rounds towards the epoch: the hour holds the time exactly for
      these time stamps. */
  lemma AlignedHourHoldsTimeExactly(ts: int)
    ensures AlignToHour(ts) <= ts < AlignToHour(ts) + 3600 <==> Alignable(ts)
  {
    if ts < 0 {
      assert (-ts) % SECS_PER_HOUR == 0 <==> ts % SECS_PER_HOUR == 0;
    }
  }

  /** Log lines and the hour they belong to. */
  datatype Chunk = Chunk(bytes: string, hour: int)

  function Max(a: int, b: int): int {
    if a >= b then a else b
  }

  /** The latest hour of a nonempty sequence. */
  function LatestHour(chunks: seq<Chunk>): int
    requires chunks != []
  {
    var n := |chunks| - 1;
    if n == 0 then chunks[0].hour else Max(LatestHour(chunks[..n]), chunks[n].hour)
  }

  /** The last chunk is at most an hour behind the latest. */
  predicate Accepted(chunks: seq<Chunk>)
    requires chunks != []
  {
    chunks[|chunks| - 1].hour + 3600 >= LatestHour(chunks)
  }

  /** Everything accepted for `hour`, in arrival order. */
  function Content(chunks: seq<Chunk>, hour: int): string {
    if chunks == [] then []
    else
      var last := chunks[|chunks| - 1];
      Content(chunks[..|chunks| - 1], hour) + if last.hour == hour && Accepted(chunks) then last.bytes else []
  }

  predicate Touched(chunks: seq<Chunk>, hour: int) {
    chunks != [] && (Touched(chunks[..|chunks| - 1], hour) || (chunks[|chunks| - 1].hour == hour && Accepted(chunks)))
  }

  type Directory = map<int, string>

  /** `hour`'s file: what was there, or a header, and then the accepted chunks. */
  predicate FileIs(disk: Directory, before: Directory, header: string, chunks: seq<Chunk>, hour: int) {
    (hour in disk <==> hour in before || Touched(chunks, hour)) &&
    (hour in disk ==> disk[hour] == (if hour in before then before[hour] else header) + Content(chunks, hour))
  }

  lemma {:induction false} UntouchedIsEmpty(chunks: seq<Chunk>, hour: int)
    requires !Touched(chunks, hour)
    ensures Content(chunks, hour) == []
  {
    if chunks != [] {
      UntouchedIsEmpty(chunks[..|chunks| - 1], hour);
    }
  }

  lemma {:induction false} TouchedNotLater(chunks: seq<Chunk>, hour: int)
    requires Touched(chunks, hour)
    ensures hour <= LatestHour(chunks)
  {
    var n := |chunks| - 1;
    if Touched(chunks[..n], hour) {
      TouchedNotLater(chunks[..n], hour);
    }
  }

  lemma {:induction false} LatestIsTouched(chunks: seq<Chunk>)
    requires chunks != []
    ensures Touched(chunks, LatestHour(chunks))
  {
    var n := |chunks| - 1;
    if n > 0 {
      LatestIsTouched(chunks[..n]);
    }
  }

  lemma ChunkSnoc(chunks: seq<Chunk>, c: Chunk)
    ensures LatestHour(chunks + [c]) == if chunks == [] then c.hour else Max(LatestHour(chunks), c.hour)
    ensures forall hour :: Content(chunks + [c], hour) ==
                           Content(chunks, hour) + if c.hour == hour && Accepted(chunks + [c]) then c.bytes else []
    ensures forall hour :: Touched(chunks + [c], hour) <==> Touched(chunks, hour) || (c.hour == hour && Accepted(chunks + [c]))
  {
    assert (chunks + [c])[..|chunks|] == chunks;
  }
}
