/** Recorded lidar sweeps on disk (tools/lidar_dataset.py) and their replay
    (ros2/src/mec_cast_lidar_client/mec_cast_lidar_client/replay.py). A file of
    float32 values is the sequence of its 4-byte words. */
module Dataset {
  import opened Base

  /** What reading one source file gives: 3 words a point. */
  datatype Sweep = Sweep(scan: int, tUs: int, words: seq<int>)

  datatype FrameEntry = FrameEntry(scan: int, offset: nat, count: nat, tUs: int)

  /** `index.json` and `points.f32`. */
  datatype Files = Files(frames: seq<FrameEntry>, points: seq<int>)

  datatype ConvertError = NoSourceFiles

  datatype ReplayError = NoFrames | WrongSize(actual: nat, expected: nat) | NothingToMap | StartOutside

  ghost predicate WholePoints(sweeps: seq<Sweep>) {
    forall i :: 0 <= i < |sweeps| ==> |sweeps[i].words| % 3 == 0
  }

  function Words(d: Files, f: FrameEntry): seq<int>
    requires 3 * (f.offset + f.count) <= |d.points|
  {
    d.points[3 * f.offset..3 * (f.offset + f.count)]
  }

  /** Entry `f` points at the whole of a sweep's own words. */
  ghost predicate PointsAt(d: Files, f: FrameEntry, s: Sweep) {
    && f.scan == s.scan && f.tUs == s.tUs && 3 * f.count == |s.words|
    && 3 * (f.offset + f.count) <= |d.points|
    && Words(d, f) == s.words
  }

  /** Where the last of `frames` ends, in points. */
  function End(frames: seq<FrameEntry>): nat {
    if frames == [] then 0 else frames[|frames| - 1].offset + frames[|frames| - 1].count
  }

  /** The entries tile the file, back to back, one sweep each. */
  ghost predicate Tiles(d: Files, sweeps: seq<Sweep>) {
    && |d.frames| == |sweeps|
    && (forall i :: 0 <= i < |sweeps| ==> PointsAt(d, d.frames[i], sweeps[i]))
    && (forall i :: 0 <= i < |sweeps| ==> d.frames[i].offset == End(d.frames[..i]))
    && |d.points| == 3 * End(d.frames)
  }

  /** Sweep `s` written behind what is there. */
  function Appended(d: Files, s: Sweep): Files {
    Files(d.frames + [FrameEntry(s.scan, End(d.frames), |s.words| / 3, s.tUs)], d.points + s.words)
  }

  lemma AppendedTiles(d: Files, sweeps: seq<Sweep>, s: Sweep)
    requires Tiles(d, sweeps) && |s.words| % 3 == 0
    ensures Tiles(Appended(d, s), sweeps + [s])
    ensures End(Appended(d, s).frames) == End(d.frames) + |s.words| / 3
  {
    var e, all := Appended(d, s), sweeps + [s];
    forall i | 0 <= i < |all| ensures PointsAt(e, e.frames[i], all[i]) && e.frames[i].offset == End(e.frames[..i]) {
      if i < |sweeps| {
        StillPointsAt(d, e, d.frames[i], sweeps[i]);
        assert e.frames[..i] == d.frames[..i];
      } else {
        assert e.frames[..i] == d.frames;
      }
    }
  }

  lemma StillPointsAt(d: Files, e: Files, f: FrameEntry, s: Sweep)
    requires PointsAt(d, f, s) && d.points <= e.points
    ensures PointsAt(e, f, s)
  {
    assert Words(e, f) == Words(d, f);
  }

  function Written(sweeps: seq<Sweep>): Files {
    if sweeps == [] then Files([], [])
    else Appended(Written(sweeps[..|sweeps| - 1]), sweeps[|sweeps| - 1])
  }

  lemma {:induction false} WrittenTiles(sweeps: seq<Sweep>)
    requires WholePoints(sweeps)
    ensures Tiles(Written(sweeps), sweeps)
  {
    if sweeps != [] {
      var most, last := sweeps[..|sweeps| - 1], sweeps[|sweeps| - 1];
      WrittenTiles(most);
      AppendedTiles(Written(most), most, last);
      assert most + [last] == sweeps;
    }
  }

  /** Where a Python slice bound falls in a list of `n`: counted from the end
      when negative, and kept inside. */
  function SliceBound(k: int, n: nat): (b: nat)
    ensures b <= n
  {
    if k < 0 then Max(k + n, 0) else Min(k, n)
  }

  /** `files[first : first + count]` */
  function Selected(files: seq<Sweep>, first: int, count: Option<int>): seq<Sweep> {
    var from := SliceBound(first, |files|);
    var to := if count.None? then |files| else SliceBound(first + count.value, |files|);
    if from <= to then files[from..to] else []
  }

  /** A file is selected when its place falls in the half-open range that the
      bounds give, those below zero counted from the end; and in order. */
  lemma SelectedMeans(files: seq<Sweep>, first: int, count: Option<int>)
    ensures exists from: nat :: SelectedFrom(files, first, count, from)
  {
    var from := SliceBound(first, |files|);
    assert SelectedFrom(files, first, count, from);
  }

  ghost predicate SelectedFrom(files: seq<Sweep>, first: int, count: Option<int>, from: nat) {
    var picked, n := Selected(files, first, count), |files|;
    && from + |picked| <= n && picked == files[from..from + |picked|]
    && forall j: nat :: j < n ==> (from <= j < from + |picked| <==> InSlice(j, n, first, count))
  }

  ghost predicate InSlice(j: nat, n: nat, first: int, count: Option<int>) {
    && (if first < 0 then first + n else first) <= j
    && (count.Some? ==>
          var end := first + count.value;
          j < if end < 0 then end + n else end)
  }

  lemma WrittenStep(sweeps: seq<Sweep>, i: nat)
    requires i < |sweeps|
    ensures Written(sweeps[..i + 1]) == Appended(Written(sweeps[..i]), sweeps[i])
  {
    assert sweeps[..i + 1][..i] == sweeps[..i];
  }

  lemma SelectedTiles(files: seq<Sweep>, first: int, count: Option<int>)
    requires WholePoints(files)
    ensures Tiles(Written(Selected(files, first, count)), Selected(files, first, count))
  {
    SelectedWhole(files, first, count);
    WrittenTiles(Selected(files, first, count));
  }

  lemma SelectedWhole(files: seq<Sweep>, first: int, count: Option<int>)
    requires WholePoints(files)
    ensures WholePoints(Selected(files, first, count))
  {
  }

  method Convert(files: seq<Sweep>, first: int, count: Option<int>) returns (r: Result<Files, ConvertError>)
    requires WholePoints(files)
    ensures r.Err? <==> files == []
    ensures r.Ok? ==> Tiles(r.value, Selected(files, first, count))
  {
    if files == [] {
      return Err(NoSourceFiles);
    }
    var sweeps := Selected(files, first, count);
    var frames: seq<FrameEntry>, points: seq<int>, offset: nat := [], [], 0;
    for i := 0 to |sweeps|
      invariant offset == End(frames)
      invariant Files(frames, points) == Written(sweeps[..i])
    {
      WrittenStep(sweeps, i);
      var n := |sweeps[i].words| / 3;
      points := points + sweeps[i].words;
      frames := frames + [FrameEntry(sweeps[i].scan, offset, n, sweeps[i].tUs)];
      offset := offset + n;
    }
    assert sweeps[..|sweeps|] == sweeps;
    SelectedTiles(files, first, count);
    r := Ok(Files(frames, points));
  }

  // ----- Replay -----

  datatype Replay = Replay(frames: seq<FrameEntry>, points: seq<int>, start: nat, loop: bool, maxPoints: nat)

  /** The checks of `Replay.__init__`. */
  function Open(d: Files, start: int, loop: bool, maxPoints: int): Result<Replay, ReplayError> {
    if d.frames == [] then Err(NoFrames)
    else
      var expected, actual := End(d.frames) * 12, 4 * |d.points|;
      if actual != expected then Err(WrongSize(actual, expected))
      else if expected == 0 then Err(NothingToMap)
      else if !(0 <= start < |d.frames|) then Err(StartOutside)
      else Ok(Replay(d.frames, d.points, start, loop, Max(0, maxPoints)))
  }

  function IndexOf(r: Replay, seqNo: nat): Option<nat>
    requires r.frames != []
  {
    var k := r.start + seqNo;
    if k < |r.frames| then Some(k)
    else if r.loop then Some(k % |r.frames|)
    else None
  }

  function Product(a: int, b: int): int { a * b }

  /** The `i`-th row of an even subsample: `linspace(0, count - 1, m)`, cut to
      an integer. */
  function SubsampleRow(count: nat, m: nat, i: nat): int
    requires 1 <= m && i < m
  {
    if m == 1 then 0 else Product(i, count - 1) / (m - 1)
  }

  ghost predicate WithinFile(r: Replay) {
    r.frames != [] && forall i :: 0 <= i < |r.frames| ==> 3 * (r.frames[i].offset + r.frames[i].count) <= |r.points|
  }

  function Rows(points: seq<int>, f: FrameEntry): (rows: seq<seq<int>>)
    requires 3 * (f.offset + f.count) <= |points|
    ensures |rows| == f.count
  {
    seq(f.count, i requires 0 <= i < f.count => points[3 * (f.offset + i)..3 * (f.offset + i) + 3])
  }

  function Subsample(rows: seq<seq<int>>, m: nat): (r: seq<seq<int>>)
    requires 0 < m < |rows|
    ensures |r| == m
  {
    seq(m, i requires 0 <= i < m => SubsampleInRange(|rows|, m, i); rows[SubsampleRow(|rows|, m, i)])
  }

  /** The points of a run's frame, three words each. */
  function FramePoints(r: Replay, seqNo: nat): Option<seq<seq<int>>>
    requires WithinFile(r)
  {
    match IndexOf(r, seqNo)
    case None => None
    case Some(k) =>
      IndexInRange(r, seqNo);
      var rows := Rows(r.points, r.frames[k]);
      Some(if 0 < r.maxPoints < |rows| then Subsample(rows, r.maxPoints) else rows)
  }

  lemma IndexInRange(r: Replay, seqNo: nat)
    requires r.frames != []
    ensures IndexOf(r, seqNo).Some? ==> IndexOf(r, seqNo).value < |r.frames|
  {
  }

  /** The points of a sweep, three words each. */
  function PointsOf(words: seq<int>): seq<seq<int>> {
    seq(|words| / 3, i requires 0 <= i < |words| / 3 => words[3 * i..3 * i + 3])
  }

  /** Word `k` of a sweep is coordinate `k % 3` of its point `k / 3`. */
  lemma PointsMean(words: seq<int>, k: nat)
    requires k < |words| / 3 * 3
    ensures k / 3 < |PointsOf(words)| && |PointsOf(words)[k / 3]| == 3 && PointsOf(words)[k / 3][k % 3] == words[k]
  {
    assert PointsOf(words)[k / 3] == words[3 * (k / 3)..3 * (k / 3) + 3];
  }

  /** The rows are evenly spaced: the `i`-th is the last one not past `i` of
      `m - 1` equal parts of the way from the first row to the last; one row
      alone is the first. */
  lemma SubsampleEven(count: nat, m: nat, i: nat)
    requires 1 <= m < count && i < m
    ensures var row := SubsampleRow(count, m, i);
      if m == 1 then row == 0 else row * (m - 1) <= i * (count - 1) < (row + 1) * (m - 1)
  {
    if m > 1 {
      QuotientBrackets(Product(i, count - 1), m - 1);
    }
  }

  lemma QuotientBrackets(n: int, d: nat)
    requires 0 < d
    ensures n / d * d <= n < (n / d + 1) * d
  {
  }

  lemma SubsampleInRange(count: nat, m: nat, i: nat)
    requires 1 <= m < count && i < m
    ensures 0 <= SubsampleRow(count, m, i) < count
  {
    if m > 1 {
      MulStep(0, i, count - 1);
      QuotientGrows(0, Product(i, count - 1), m - 1);
      MulStep(i, m - 1, count - 1);
      QuotientOfProduct(m - 1, count - 1);
      QuotientGrows(Product(i, count - 1), Product(m - 1, count - 1), m - 1);
    }
  }

  /** With room for two or more points the subsample runs from the first to the
      last, and never takes one twice. */
  lemma SubsampleSpreads(count: nat, m: nat, i: nat)
    requires 2 <= m < count && i + 1 < m
    ensures SubsampleRow(count, m, 0) == 0 && SubsampleRow(count, m, m - 1) == count - 1
    ensures SubsampleRow(count, m, i) < SubsampleRow(count, m, i + 1)
  {
    QuotientOfProduct(m - 1, count - 1);
    NextProduct(i, count - 1);
    QuotientPasses(Product(i, count - 1), Product(i + 1, count - 1), m - 1);
  }

  lemma NextProduct(i: nat, c: nat)
    ensures Product(i + 1, c) == Product(i, c) + c
  {
  }

  lemma QuotientOfProduct(d: nat, c: nat)
    requires 0 < d
    ensures Product(d, c) / d == c
  {
    QuotientIs(Product(d, c), d, c, 0);
  }

  lemma QuotientGrows(a: int, b: int, d: nat)
    requires 0 < d && a <= b
    ensures a / d <= b / d
  {
    if b / d < a / d {
      MulStep(b / d + 1, a / d, d);
    }
  }

  lemma QuotientPasses(a: int, b: int, d: nat)
    requires 0 < d && a + d <= b
    ensures a / d < b / d
  {
    QuotientIs(a + d, d, a / d + 1, a % d);
    QuotientGrows(a + d, b, d);
  }

  lemma QuotientIs(x: int, d: nat, q: int, r: nat)
    requires 0 < d && r < d && x == q * d + r
    ensures x / d == q
  {
    ModUnique(x, d, q, r);
    var p := x / d;
    if p < q {
      MulStep(p + 1, q, d);
    } else if q < p {
      MulStep(q + 1, p, d);
    }
  }

  lemma MulStep(a: int, b: int, d: nat)
    requires a <= b
    ensures a * d <= b * d
  {
  }

  /** What a run with this bound shows of a sweep: all its points, or an even
      subsample of them. */
  ghost predicate Shows(shown: seq<seq<int>>, all: seq<seq<int>>, maxPoints: int) {
    if 0 < maxPoints < |all| then
      && |shown| == maxPoints
      && forall i :: 0 <= i < maxPoints ==>
           && 0 <= SubsampleRow(|all|, maxPoints, i) < |all|
           && shown[i] == all[SubsampleRow(|all|, maxPoints, i)]
    else shown == all
  }

  /** Which sweep a run shows as its frame `seqNo`: the next one, round again
      if it loops, and none past the end if it does not. */
  ghost function SweepShown(n: nat, start: nat, loop: bool, seqNo: nat): Option<nat>
    requires 0 < n
  {
    if start + seqNo < n || loop then Some((start + seqNo) % n) else None
  }

  /** A conversion opens for replay exactly when it holds a sweep to start
      from, and a point. */
  lemma ConversionOpens(d: Files, sweeps: seq<Sweep>, start: int, loop: bool, maxPoints: int)
    requires Tiles(d, sweeps)
    ensures Open(d, start, loop, maxPoints).Ok? <==>
      0 <= start < |sweeps| && exists i :: 0 <= i < |sweeps| && sweeps[i].words != []
    ensures Open(d, start, loop, maxPoints).Ok? ==> WithinFile(Open(d, start, loop, maxPoints).value)
  {
    PointsAreSweeps(d, sweeps);
    if Open(d, start, loop, maxPoints).Ok? {
      EntriesInFile(d, sweeps);
    }
  }

  lemma EntriesInFile(d: Files, sweeps: seq<Sweep>)
    requires Tiles(d, sweeps)
    ensures forall i :: 0 <= i < |d.frames| ==> 3 * (d.frames[i].offset + d.frames[i].count) <= |d.points|
  {
    forall i | 0 <= i < |d.frames| ensures 3 * (d.frames[i].offset + d.frames[i].count) <= |d.points| {
      assert PointsAt(d, d.frames[i], sweeps[i]);
    }
  }

  /** The file is empty only if every sweep is. */
  lemma PointsAreSweeps(d: Files, sweeps: seq<Sweep>)
    requires Tiles(d, sweeps)
    ensures d.points != [] <==> exists i :: 0 <= i < |sweeps| && sweeps[i].words != []
  {
    if d.points != [] {
      assert d.frames[..|sweeps|] == d.frames;
      PointsNeedSweep(d, sweeps, |sweeps|);
    }
    if i :| 0 <= i < |sweeps| && sweeps[i].words != [] {
      assert PointsAt(d, d.frames[i], sweeps[i]);
    }
  }

  /** Converting and replaying gives back each sweep's own points. */
  lemma ReplayShowsSweeps(d: Files, sweeps: seq<Sweep>, start: nat, loop: bool, maxPoints: int, seqNo: nat)
    requires Tiles(d, sweeps) && Open(d, start, loop, maxPoints).Ok?
    ensures |sweeps| > 0 && WithinFile(Open(d, start, loop, maxPoints).value)
    ensures var shown := FramePoints(Open(d, start, loop, maxPoints).value, seqNo);
      match SweepShown(|sweeps|, start, loop, seqNo)
      case None => shown == None
      case Some(k) => shown.Some? && Shows(shown.value, PointsOf(sweeps[k].words), maxPoints)
  {
    ConversionOpens(d, sweeps, start, loop, maxPoints);
    var r := Open(d, start, loop, maxPoints).value;
    IndexIsSweepShown(r, seqNo);
    if IndexOf(r, seqNo).Some? {
      FrameShows(d, sweeps, r, maxPoints, seqNo, IndexOf(r, seqNo).value);
    }
  }

  lemma IndexIsSweepShown(r: Replay, seqNo: nat)
    requires r.frames != []
    ensures IndexOf(r, seqNo) == SweepShown(|r.frames|, r.start, r.loop, seqNo)
    ensures IndexOf(r, seqNo).Some? ==> IndexOf(r, seqNo).value < |r.frames|
  {
    if r.start + seqNo < |r.frames| {
      ModSmall(r.start + seqNo, |r.frames|, r.start + seqNo);
    }
  }

  lemma FrameShows(d: Files, sweeps: seq<Sweep>, r: Replay, maxPoints: int, seqNo: nat, k: nat)
    requires Tiles(d, sweeps) && WithinFile(r) && r.frames == d.frames && r.points == d.points
    requires r.maxPoints == Max(0, maxPoints) && IndexOf(r, seqNo) == Some(k) && k < |sweeps|
    ensures FramePoints(r, seqNo).Some? && Shows(FramePoints(r, seqNo).value, PointsOf(sweeps[k].words), maxPoints)
  {
    RowsArePoints(d, d.frames[k], sweeps[k]);
    SubsampleShows(PointsOf(sweeps[k].words), maxPoints);
  }

  lemma RowsArePoints(d: Files, f: FrameEntry, s: Sweep)
    requires PointsAt(d, f, s)
    ensures Rows(d.points, f) == PointsOf(s.words)
  {
    forall i | 0 <= i < f.count
      ensures d.points[3 * (f.offset + i)..3 * (f.offset + i) + 3] == s.words[3 * i..3 * i + 3]
    {
      SliceOfSlice(d.points, 3 * f.offset, 3 * (f.offset + f.count), 3 * i, 3 * i + 3);
    }
  }

  lemma SubsampleShows(all: seq<seq<int>>, m: int)
    ensures 0 < m < |all| ==> Shows(Subsample(all, m), all, m)
  {
    if 0 < m < |all| {
      forall i | 0 <= i < m ensures 0 <= SubsampleRow(|all|, m, i) < |all| {
        SubsampleInRange(|all|, m, i);
      }
    }
  }

  lemma {:induction false} PointsNeedSweep(d: Files, sweeps: seq<Sweep>, n: nat)
    requires Tiles(d, sweeps) && n <= |sweeps| && End(d.frames[..n]) > 0
    ensures exists i :: 0 <= i < n && sweeps[i].words != []
  {
    if n > 0 {
      assert d.frames[..n][n - 1] == d.frames[n - 1];
      assert PointsAt(d, d.frames[n - 1], sweeps[n - 1]);
      if sweeps[n - 1].words == [] {
        PointsNeedSweep(d, sweeps, n - 1);
      }
    }
  }

  lemma SliceOfSlice(s: seq<int>, lo: nat, hi: nat, a: nat, b: nat)
    requires lo <= hi <= |s| && a <= b <= hi - lo
    ensures s[lo..hi][a..b] == s[lo + a..lo + b]
  {
    forall k | 0 <= k < b - a ensures s[lo..hi][a..b][k] == s[lo + a..lo + b][k] {
      assert s[lo..hi][a + k] == s[lo + a + k];
    }
  }

  /** Opening any files at all: what is refused, and for what. */
  lemma OpenVerdict(d: Files, start: int, loop: bool, maxPoints: int)
    ensures var r := Open(d, start, loop, maxPoints);
      var total := if d.frames == [] then 0 else d.frames[|d.frames| - 1].offset + d.frames[|d.frames| - 1].count;
      && (r == Err(NoFrames) <==> d.frames == [])
      && (r == Err(WrongSize(4 * |d.points|, 12 * total)) <==> d.frames != [] && |d.points| != 3 * total)
      && (r == Err(NothingToMap) <==> d.frames != [] && total == 0 && d.points == [])
      && (r == Err(StartOutside) <==>
            d.frames != [] && total != 0 && |d.points| == 3 * total && !(0 <= start < |d.frames|))
      && (r.Ok? <==> total != 0 && |d.points| == 3 * total && 0 <= start < |d.frames|)
      && (r.Ok? ==> r.value == Replay(d.frames, d.points, start, loop, if maxPoints < 0 then 0 else maxPoints))
  {
  }

  /** A file cut short, or grown, by even one word is refused. */
  lemma InterruptedConversionRefused(d: Files, sweeps: seq<Sweep>, points: seq<int>,
                                     start: nat, loop: bool, maxPoints: int)
    requires Tiles(d, sweeps) && Open(d, start, loop, maxPoints).Ok?
    ensures Open(d.(points := points), start, loop, maxPoints).Ok? <==> |points| == |d.points|
  {
  }

  /** Any |frames| consecutive frames of a looping run show every sweep exactly
      once. */
  lemma LoopShowsEachOnce(r: Replay, from: nat, k: nat)
    requires r.frames != [] && r.loop && r.start < |r.frames| && k < |r.frames|
    ensures exists q :: from <= q < from + |r.frames| && IndexOf(r, q) == Some(k)
    ensures forall p, q :: (from <= p < q < from + |r.frames|) ==> IndexOf(r, p) != IndexOf(r, q)
  {
    var n := |r.frames|;
    var base := (r.start + from) % n;
    var q := from + (if base <= k then k - base else k - base + n);
    ModSum(r.start + from, q - from, n);
    ModSmall(base + (q - from), n, k);
    IndexIsSweepShown(r, q);
    forall p, q | from <= p < q < from + n ensures IndexOf(r, p) != IndexOf(r, q) {
      FramesApart(r, from, p, q);
    }
  }

  lemma FramesApart(r: Replay, from: nat, p: nat, q: nat)
    requires r.frames != [] && r.loop && r.start < |r.frames| && from <= p < q < from + |r.frames|
    ensures IndexOf(r, p) != IndexOf(r, q)
  {
    var n := |r.frames|;
    var base := (r.start + from) % n;
    ModSum(r.start + from, p - from, n);
    ModSum(r.start + from, q - from, n);
    IndexIsSweepShown(r, p);
    IndexIsSweepShown(r, q);
    if (base + (p - from)) % n == (base + (q - from)) % n {
      ModApart(base, p - from, q - from, n);
    }
  }

  lemma ModSum(a: nat, b: nat, n: nat)
    requires 0 < n
    ensures (a + b) % n == (a % n + b) % n
  {
    var q := a / n;
    assert a == q * n + a % n;
    ModMultiple(a % n + b, q, n);
  }

  lemma {:induction false} ModMultiple(x: nat, q: nat, n: nat)
    requires 0 < n
    ensures (q * n + x) % n == x % n
  {
    if q > 0 {
      ModMultiple(x, q - 1, n);
      assert q * n + x == ((q - 1) * n + x) + n;
      ModPlusOne((q - 1) * n + x, n);
    }
  }

  lemma ModPlusOne(x: nat, n: nat)
    requires 0 < n
    ensures (x + n) % n == x % n
  {
    var q := x / n;
    assert x + n == (q + 1) * n + x % n;
    ModUnique(x + n, n, q + 1, x % n);
  }

  lemma ModUnique(x: int, n: nat, q: int, r: int)
    requires 0 < n && 0 <= r < n && x == q * n + r
    ensures x % n == r
  {
    var p := x / n;
    assert x == p * n + x % n;
    if p < q {
      MulStep(p + 1, q, n);
    } else if q < p {
      MulStep(q + 1, p, n);
    }
  }

  lemma ModSmall(x: nat, n: nat, k: nat)
    requires k < n && (x == k || x == k + n)
    ensures x % n == k
  {
    ModUnique(x, n, if x == k then 0 else 1, k);
  }

  lemma ModApart(base: nat, a: nat, b: nat, n: nat)
    requires base < n && a < n && b < n && (base + a) % n == (base + b) % n
    ensures a == b
  {
    ModSmall(base + a, n, if base + a < n then base + a else base + a - n);
    ModSmall(base + b, n, if base + b < n then base + b else base + b - n);
  }
}
