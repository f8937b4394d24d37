/**
 * The program-text scanner of src/types/impls.rs (`AzmFile`): `scan_chunk`
 * walks the bytes in chunks of whole lines, records where every line starts
 * and collects the label lines (those beginning with '.'); `get_line` cuts a
 * line out of the text using the recorded starts.
 *
 * The struct declaration is not part of this model; its fields are taken to
 * be the text (`original`), the number of bytes to scan, the number scanned
 * so far, the line starts and the number of logical lines, and a fresh scanner
 * to start with nothing scanned, no line starts and zero logical lines.
 */
module AzmFileScan {
  import opened Wrappers
  import opened Defs

  const NL: u8 := 10
  const CR: u8 := 13
  const DOT: u8 := 46

  /** The number of line feeds among c[from..to]. */
  function NewlineCount(c: seq<u8>, lo: nat, hi: nat): nat
    requires lo <= hi <= |c|
    decreases hi - lo
  {
    if lo == hi then 0 else (if c[lo] == NL then 1 else 0) + NewlineCount(c, lo + 1, hi)
  }

  /**
   * Where a chunk that starts at `from` with a budget of `budget` lines stops:
   * after the budget-th line feed, or at `n`, whichever comes first. It never
   * passes `n`, consumes at most `budget` line feeds, and stops short of `n`
   * only right after a line feed once the budget is used up.
   */
  function Stop(c: seq<u8>, n: nat, lo: nat, budget: nat): (r: nat)
    requires lo <= n <= |c|
    ensures lo <= r <= n
    ensures NewlineCount(c, lo, r) <= budget
    ensures r < n ==> NewlineCount(c, lo, r) == budget
    ensures lo < r < n ==> c[r - 1] == NL
    decreases n - lo
  {
    if budget == 0 || lo == n then lo
    else if c[lo] == NL then Stop(c, n, lo + 1, budget - 1)
    else Stop(c, n, lo + 1, budget)
  }

  /** Two chunks of b1 and then b2 lines end where one chunk of b1 + b2 lines does. */
  lemma {:induction false} StopCompose(c: seq<u8>, n: nat, lo: nat, b1: nat, b2: nat)
    requires lo <= n <= |c|
    ensures Stop(c, n, Stop(c, n, lo, b1), b2) == Stop(c, n, lo, b1 + b2)
    decreases n - lo
  {
    if b1 > 0 && lo < n {
      if c[lo] == NL {
        StopCompose(c, n, lo + 1, b1 - 1, b2);
      } else {
        StopCompose(c, n, lo + 1, b1, b2);
      }
    }
  }

  /**
   * The line starts recorded while scanning c[from..to]: the offset after
   * every line feed there, except one that ends the text (offset n).
   */
  function StartsBetween(c: seq<u8>, n: nat, lo: nat, hi: nat): seq<nat>
    requires lo <= hi <= n <= |c|
    decreases hi
  {
    if hi == lo then []
    else StartsBetween(c, n, lo, hi - 1) + (if c[hi - 1] == NL && hi < n then [hi] else [])
  }

  /** Every recorded start lies after a line feed of the range, before n, and the starts increase strictly. */
  lemma {:induction false} StartsBetweenShape(c: seq<u8>, n: nat, lo: nat, hi: nat)
    requires lo <= hi <= n <= |c|
    ensures var s := StartsBetween(c, n, lo, hi);
            && (forall k :: 0 <= k < |s| ==> lo < s[k] <= hi && s[k] < n && c[s[k] - 1] == NL)
            && (forall j, k :: 0 <= j < k < |s| ==> s[j] < s[k])
    decreases hi
  {
    if hi > lo {
      StartsBetweenShape(c, n, lo, hi - 1);
      var prev := StartsBetween(c, n, lo, hi - 1);
      var s := StartsBetween(c, n, lo, hi);
      assert s == prev + (if c[hi - 1] == NL && hi < n then [hi] else []);
      assert var t := StartsBetween(c, n, lo, hi - 1); forall k :: 0 <= k < |t| ==> lo < t[k] <= hi - 1 && t[k] < n && c[t[k] - 1] == NL;
      assert forall k :: 0 <= k < |prev| ==> lo < prev[k] <= hi - 1;
      forall k | 0 <= k < |s|
        ensures lo < s[k] <= hi && s[k] < n && c[s[k] - 1] == NL
      {
        if k < |prev| {
          assert s[k] == prev[k];
        } else {
          assert s[k] == hi;
        }
      }
      forall j, k | 0 <= j < k < |s|
        ensures s[j] < s[k]
      {
        assert s[j] == prev[j];
        if k < |prev| {
          assert s[k] == prev[k];
        } else {
          assert s[k] == hi;
        }
      }
    }
  }

  /** Recorded starts of a whole scan, behind the first line's 0, are kept the way the scanner keeps them. */
  lemma PrependZero(c: seq<u8>, n: nat, hi: nat)
    requires hi <= n <= |c|
    ensures StartsOk([0] + StartsBetween(c, n, 0, hi), n)
  {
    var sb := StartsBetween(c, n, 0, hi);
    StartsBetweenShape(c, n, 0, hi);
    var s := [0] + sb;
    assert forall k :: 0 < k < |s| ==> s[k] == sb[k - 1];
  }

  /** Every line feed inside the range, unless it ends the text, is followed by a recorded start. */
  lemma {:induction false} StartsBetweenComplete(c: seq<u8>, n: nat, lo: nat, hi: nat, p: nat)
    requires lo <= hi <= n <= |c|
    requires lo <= p < hi && c[p] == NL && p + 1 < n
    ensures p + 1 in StartsBetween(c, n, lo, hi)
    decreases hi
  {
    if p < hi - 1 {
      StartsBetweenComplete(c, n, lo, hi - 1, p);
    }
  }

  lemma {:induction false} StartsBetweenJoin(c: seq<u8>, n: nat, a: nat, b: nat, d: nat)
    requires a <= b <= d <= n <= |c|
    ensures StartsBetween(c, n, a, b) + StartsBetween(c, n, b, d) == StartsBetween(c, n, a, d)
    decreases d - b
  {
    if d > b {
      StartsBetweenJoin(c, n, a, b, d - 1);
    }
  }

  /** Where the line holding offset p begins, looking no further back than `from`. */
  function LineBegin(c: seq<u8>, lo: nat, p: nat): (b: nat)
    requires lo <= p <= |c|
    ensures lo <= b <= p
    ensures forall q :: b <= q < p ==> c[q] != NL
    ensures b > lo ==> c[b - 1] == NL
    decreases p
  {
    if p == lo then lo
    else if c[p - 1] == NL then p
    else LineBegin(c, lo, p - 1)
  }

  /** The label a line names: without its leading '.' and its trailing "\n" or "\r\n". */
  function LabelName(line: seq<u8>): (name: seq<u8>)
    requires |line| >= 2 && line[0] == DOT && line[|line| - 1] == NL
    requires forall q :: 0 <= q < |line| - 1 ==> line[q] != NL
    ensures NL !in name
    ensures |name| == |line| - (if line[|line| - 2] == CR then 3 else 2)
    ensures forall q :: 0 <= q < |name| ==> name[q] == line[q + 1]
  {
    var stop := if line[|line| - 2] == CR then |line| - 2 else |line| - 1;
    line[1..stop]
  }

  /**
   * The labels found while scanning c[lo..hi]: for every line feed whose
   * line begins with '.', the label's name and the line's index, which is
   * `base` plus the number of line starts recorded before that line feed.
   */
  function Labels(c: seq<u8>, n: nat, lo: nat, hi: nat, base: int): seq<(seq<u8>, int)>
    requires lo <= hi <= n <= |c|
    decreases hi
  {
    if hi == lo then []
    else
      var begin := LineBegin(c, lo, hi - 1);
      Labels(c, n, lo, hi - 1, base) +
      (if c[hi - 1] == NL && c[begin] == DOT
       then [(LabelName(c[begin..hi]), base + |StartsBetween(c, n, lo, hi - 1)|)]
       else [])
  }

  /** The intended end of the line starting at `start`: its first line feed, or the end of the text. */
  function LineEnd(c: seq<u8>, n: nat, start: nat): (e: nat)
    requires start <= n <= |c|
    ensures start <= e <= n
    ensures e < n ==> c[e] == NL
    ensures forall q :: start <= q < e ==> c[q] != NL
    decreases n - start
  {
    if start == n || c[start] == NL then start else LineEnd(c, n, start + 1)
  }

  /** Line starts as the scanner keeps them: 0 first, increasing, all but the first inside the text. */
  predicate StartsOk(starts: seq<nat>, n: nat)
  {
    && (|starts| > 0 ==> starts[0] == 0)
    && (forall k :: 0 < k < |starts| ==> starts[k] < n)
    && (forall j, k :: 0 <= j < k < |starts| ==> starts[j] < starts[k])
  }

  /**
   * `get_line` on a scanner's fields, as written: None at or past the
   * logical line count; otherwise the bytes from the line's start up to one
   * before the next line's start, or one before the end of the text for the
   * last line.
   */
  function GetLineOf(c: seq<u8>, n: nat, starts: seq<nat>, logical: nat, index: nat): (r: Option<seq<u8>>)
    requires n <= |c| && StartsOk(starts, n)
    requires logical == 0 || (logical == |starts| && |starts| >= 2)
    ensures r.None? <==> index >= logical
    ensures r.Some? ==> starts[index] + |r.value| <= n && r.value == c[starts[index]..starts[index] + |r.value|]
  {
    if index >= logical then Option.None
    else
      var curr := starts[index];
      var next := if index + 1 < |starts| then starts[index + 1] else n;
      Some(c[curr..next - 1])
  }

  /**
   * `get_line` as evidently intended: every recorded line of a non-empty
   * text counts, and a line loses its final byte only when that byte is the
   * line feed.
   */
  function GetLineFixedOf(c: seq<u8>, n: nat, starts: seq<nat>, index: nat): (r: Option<seq<u8>>)
    requires n <= |c| && StartsOk(starts, n)
    ensures r.None? <==> index >= |starts| || n == 0
    ensures r.Some? ==> starts[index] + |r.value| <= n && r.value == c[starts[index]..starts[index] + |r.value|]
  {
    if index >= |starts| || n == 0 then Option.None
    else
      var curr := starts[index];
      var next := if index + 1 < |starts| then starts[index + 1] else n;
      Some(c[curr..if c[next - 1] == NL then next - 1 else next])
  }

  /** The line starts of text c[..n] once all of it is scanned. */
  function AllStarts(c: seq<u8>, n: nat): (s: seq<nat>)
    requires n <= |c|
    ensures StartsOk(s, n)
  {
    PrependZero(c, n, n);
    [0] + StartsBetween(c, n, 0, n)
  }

  /**
   * Once all of a non-empty text is scanned, the corrected `get_line` returns
   * for every recorded line exactly the bytes from its start up to its first
   * line feed, or up to the end of the text when no line feed follows.
   */
  lemma FixedLineIsLineText(c: seq<u8>, n: nat, index: nat)
    requires 0 < n <= |c|
    requires index < |AllStarts(c, n)|
    ensures var s := AllStarts(c, n);
            GetLineFixedOf(c, n, s, index) == Some(c[s[index]..LineEnd(c, n, s[index])])
  {
    var s := AllStarts(c, n);
    var curr := s[index];
    var next := if index + 1 < |s| then s[index + 1] else n;
    NoNewlineBeforeNextStart(c, n, index);
    if index + 1 < |s| {
      StartsBetweenShape(c, n, 0, n);
      assert s[index + 1] == StartsBetween(c, n, 0, n)[index];
      LineEndAt(c, n, curr, next - 1);
    } else if c[next - 1] == NL {
      LineEndAt(c, n, curr, next - 1);
    } else {
      LineEndAt(c, n, curr, next);
    }
  }

  /**
   * Once all of a non-empty text is scanned, the as-written `get_line`
   * finds nothing while fewer than two lines are recorded; otherwise it
   * returns every line but the last exactly as the corrected one does (its
   * text up to the line feed), and the last line up to one byte before the
   * end of the text, which agrees with the corrected line exactly when the
   * text ends in a line feed.
   */
  lemma AsWrittenLineText(c: seq<u8>, n: nat, index: nat)
    requires 0 < n <= |c|
    requires index < |AllStarts(c, n)|
    ensures var s := AllStarts(c, n);
            var logical := if |s| <= 1 then 0 else |s|;
            var r := GetLineOf(c, n, s, logical, index);
            && (|s| <= 1 ==> r.None?)
            && (|s| >= 2 && index + 1 < |s| ==> r == Some(c[s[index]..LineEnd(c, n, s[index])]))
            && (|s| >= 2 && index + 1 == |s| ==> r == Some(c[s[index]..n - 1]))
            && (|s| >= 2 ==> (r == GetLineFixedOf(c, n, s, index) <==> index + 1 < |s| || c[n - 1] == NL))
  {
    var s := AllStarts(c, n);
    FixedLineIsLineText(c, n, index);
    if |s| >= 2 && index + 1 < |s| {
      StartsBetweenShape(c, n, 0, n);
      assert s[index + 1] == StartsBetween(c, n, 0, n)[index];
    }
  }

  /** Between a recorded start and one before the next start (or the end) there is no line feed. */
  lemma NoNewlineBeforeNextStart(c: seq<u8>, n: nat, index: nat)
    requires 0 < n <= |c|
    requires index < |AllStarts(c, n)|
    ensures var s := AllStarts(c, n);
            var next := if index + 1 < |s| then s[index + 1] else n;
            forall q :: s[index] <= q < next - 1 ==> c[q] != NL
  {
    var s := AllStarts(c, n);
    var sb := StartsBetween(c, n, 0, n);
    var next := if index + 1 < |s| then s[index + 1] else n;
    forall q | s[index] <= q < next - 1
      ensures c[q] != NL
    {
      forall k | 0 <= k < |sb|
        ensures sb[k] != q + 1
      {
        assert s[k + 1] == sb[k];
        StrictlyBetween(s, index, k + 1);
      }
      NewlineRecorded(c, n, q);
    }
  }

  /** A line feed before the last byte of a fully scanned text is followed by a recorded start. */
  lemma NewlineRecorded(c: seq<u8>, n: nat, p: nat)
    requires p + 1 < n <= |c|
    ensures c[p] == NL ==> p + 1 in StartsBetween(c, n, 0, n)
  {
    if c[p] == NL {
      StartsBetweenComplete(c, n, 0, n, p);
    }
  }

  /** In a strictly increasing sequence, no element lies strictly between two neighbours. */
  lemma StrictlyBetween(s: seq<nat>, i: nat, k: nat)
    requires forall j, m :: 0 <= j < m < |s| ==> s[j] < s[m]
    requires i < |s| && k < |s|
    ensures s[k] <= s[i] || (i + 1 < |s| && s[k] >= s[i + 1])
  {
    if k > i + 1 {
      assert s[i + 1] < s[k];
    } else if k < i {
      assert s[k] < s[i];
    }
  }

  lemma {:induction false} LineEndAt(c: seq<u8>, n: nat, start: nat, e: nat)
    requires start <= e <= n <= |c|
    requires forall q :: start <= q < e ==> c[q] != NL
    requires e == n || c[e] == NL
    ensures LineEnd(c, n, start) == e
    decreases e - start
  {
    if start < e {
      LineEndAt(c, n, start + 1, e);
    }
  }

  /** Scanning the byte at offset q records a start after it when it is a line feed that does not end the text. */
  lemma StartsStep(c: seq<u8>, n: nat, lo: nat, q: nat, base: seq<nat>, starts: seq<nat>)
    requires lo <= q < n <= |c|
    requires starts == base + StartsBetween(c, n, lo, q)
    ensures c[q] == NL && q + 1 < n ==> starts + [q + 1] == base + StartsBetween(c, n, lo, q + 1)
    ensures !(c[q] == NL && q + 1 < n) ==> starts == base + StartsBetween(c, n, lo, q + 1)
    ensures StartsBetween(c, n, lo, q + 1) != [] ==> StartsBetween(c, n, lo, q) != [] || (c[q] == NL && q + 1 < n)
  {
  }

  /** Scanning the byte at offset q extends the line buffer, or empties it after a line feed. */
  lemma BufferStep(c: seq<u8>, lo: nat, q: nat, buffer: seq<u8>)
    requires lo <= q < |c|
    requires buffer == c[LineBegin(c, lo, q)..q]
    ensures c[q] == NL ==> LineBegin(c, lo, q + 1) == q + 1
    ensures c[q] != NL ==> buffer + [c[q]] == c[LineBegin(c, lo, q + 1)..q + 1]
    ensures var line := buffer + [c[q]];
            forall k :: 0 <= k < |line| - 1 ==> line[k] != NL
  {
    var begin := LineBegin(c, lo, q);
    assert buffer + [c[q]] == c[begin..q + 1];
  }

  /** Scanning the byte at offset q adds a label exactly when it ends a line that begins with '.'. */
  lemma LabelsStep(c: seq<u8>, n: nat, lo: nat, q: nat, base: seq<nat>, starts: seq<nat>,
                   buffer: seq<u8>, symbols: seq<(seq<u8>, int)>)
    requires lo <= q < n <= |c| && base != []
    requires starts == base + StartsBetween(c, n, lo, q)
    requires buffer == c[LineBegin(c, lo, q)..q]
    requires symbols == Labels(c, n, lo, q, |base| - 1)
    ensures var line := buffer + [c[q]];
            && (c[q] == NL && line[0] == DOT ==>
                  && (forall k :: 0 <= k < |line| - 1 ==> line[k] != NL)
                  && symbols + [(LabelName(line), |starts| - 1)] == Labels(c, n, lo, q + 1, |base| - 1))
            && (!(c[q] == NL && line[0] == DOT) ==> symbols == Labels(c, n, lo, q + 1, |base| - 1))
  {
    BufferStep(c, lo, q, buffer);
    var begin := LineBegin(c, lo, q);
    assert buffer + [c[q]] == c[begin..q + 1];
  }

  lemma StopStep(c: seq<u8>, n: nat, q: nat, budget: nat)
    requires q < n <= |c| && budget > 0
    ensures Stop(c, n, q, budget) == Stop(c, n, q + 1, if c[q] == NL then budget - 1 else budget)
  {
  }

  lemma SliceExtend(c: seq<u8>, a: nat, b: nat)
    requires a <= b < |c|
    ensures c[a..b] + [c[b]] == c[a..b + 1]
  {
  }

  /**
   * One turn of the loop of `scan_chunk`, on the byte at offset q: append it
   * to the line buffer; at a line feed, emit a label when the buffered line
   * begins with '.', record the next line's start unless the line feed ends
   * the text (the logical line count following the number of starts), and
   * empty the buffer. It keeps the loop's invariant.
   */
  method ScanByte(c: seq<u8>, n: nat, s0: nat, q: nat, starts0: seq<nat>, logical0: nat,
                  starts: seq<nat>, logical: nat, buffer: seq<u8>, symbols: seq<(seq<u8>, int)>)
    returns (starts': seq<nat>, logical': nat, buffer': seq<u8>, symbols': seq<(seq<u8>, int)>)
    requires s0 <= q < n <= |c| && starts0 != []
    requires starts == starts0 + StartsBetween(c, n, s0, q)
    requires buffer == c[LineBegin(c, s0, q)..q]
    requires symbols == Labels(c, n, s0, q, |starts0| - 1)
    requires logical == if StartsBetween(c, n, s0, q) == [] then logical0 else |starts|
    ensures starts' == starts0 + StartsBetween(c, n, s0, q + 1)
    ensures buffer' == c[LineBegin(c, s0, q + 1)..q + 1]
    ensures symbols' == Labels(c, n, s0, q + 1, |starts0| - 1)
    ensures logical' == if StartsBetween(c, n, s0, q + 1) == [] then logical0 else |starts'|
  {
    StartsStep(c, n, s0, q, starts0, starts);
    BufferStep(c, s0, q, buffer);
    LabelsStep(c, n, s0, q, starts0, starts, buffer, symbols);
    starts', logical', symbols' := starts, logical, symbols;
    buffer' := buffer + [c[q]];
    if c[q] == NL {
      if buffer'[0] == DOT {
        symbols' := symbols' + [(LabelName(buffer'), |starts'| - 1)];
      }
      if q + 1 < n {
        starts' := starts' + [q + 1];
        logical' := |starts'|;
      }
      buffer' := [];
    }
  }

  /**
   * The loop of `scan_chunk` over the text c[..n] from offset s0: one byte at
   * a time (see ScanByte) until the budget of lines is used or the text ends.
   */
  method ScanLines(c: seq<u8>, n: nat, s0: nat, starts0: seq<nat>, logical0: nat, lineBudget: nat)
    returns (scanned: nat, starts: seq<nat>, logical: nat, symbols: seq<(seq<u8>, int)>)
    requires s0 <= n <= |c| && starts0 != []
    ensures scanned == Stop(c, n, s0, lineBudget)
    ensures starts == starts0 + StartsBetween(c, n, s0, scanned)
    ensures logical == if StartsBetween(c, n, s0, scanned) == [] then logical0 else |starts|
    ensures symbols == Labels(c, n, s0, scanned, |starts0| - 1)
  {
    scanned, starts, logical := s0, starts0, logical0;
    var lineBuffer: seq<u8> := [];
    symbols := [];
    var linesProcessed := 0;
    while linesProcessed < lineBudget && scanned < n
      invariant s0 <= scanned <= n
      invariant linesProcessed <= lineBudget
      invariant Stop(c, n, s0, lineBudget) == Stop(c, n, scanned, lineBudget - linesProcessed)
      invariant starts == starts0 + StartsBetween(c, n, s0, scanned)
      invariant lineBuffer == c[LineBegin(c, s0, scanned)..scanned]
      invariant symbols == Labels(c, n, s0, scanned, |starts0| - 1)
      invariant logical == if StartsBetween(c, n, s0, scanned) == [] then logical0 else |starts|
      decreases n - scanned
    {
      StopStep(c, n, scanned, lineBudget - linesProcessed);
      var b := c[scanned];
      starts, logical, lineBuffer, symbols := ScanByte(c, n, s0, scanned, starts0, logical0, starts, logical, lineBuffer, symbols);
      scanned := scanned + 1;
      if b == NL {
        linesProcessed := linesProcessed + 1;
      }
    }
    assert Stop(c, n, scanned, lineBudget - linesProcessed) == scanned;
  }

  class AzmFile {
    var original: seq<u8>
    var bytesToScan: nat
    var bytesScanned: nat
    var lineStarts: seq<nat>
    var logicalLines: nat

    /**
     * The scanner's invariant: it has scanned a prefix of the text; its line
     * starts are 0 followed by the offset after every line feed scanned so far
     * (except one that ends the text); and the logical line count is the
     * number of starts once a second line has been found, zero before.
     */
    ghost predicate Valid()
      reads this
    {
      && bytesToScan <= |original|
      && bytesScanned <= bytesToScan
      && (lineStarts == [] ==> bytesScanned == 0)
      && (lineStarts != [] ==> lineStarts == [0] + StartsBetween(original, bytesToScan, 0, bytesScanned))
      && StartsOk(lineStarts, bytesToScan)
      && logicalLines == (if |lineStarts| <= 1 then 0 else |lineStarts|)
    }

    constructor(content: seq<u8>)
      ensures Valid()
      ensures original == content && bytesToScan == |content|
      ensures bytesScanned == 0 && lineStarts == [] && logicalLines == 0
    {
      original := content;
      bytesToScan := |content|;
      bytesScanned := 0;
      lineStarts := [];
      logicalLines := 0;
    }

    /**
     * `scan_chunk`: scan at most `lineBudget` more lines (never past
     * `bytesToScan`), recording a line start after each line feed that does
     * not end the text, and return every label line met, with its line index.
     */
    method ScanChunk(lineBudget: nat) returns (symbols: seq<(seq<u8>, int)>)
      requires Valid()
      modifies this
      ensures Valid()
      ensures original == old(original) && bytesToScan == old(bytesToScan)
      ensures bytesScanned == Stop(original, bytesToScan, old(bytesScanned), lineBudget)
      ensures var base := if old(lineStarts) == [] then [0] else old(lineStarts);
              && lineStarts == base + StartsBetween(original, bytesToScan, old(bytesScanned), bytesScanned)
              && symbols == Labels(original, bytesToScan, old(bytesScanned), bytesScanned, |base| - 1)
    {
      if bytesScanned == 0 && lineStarts == [] {
        lineStarts := lineStarts + [0];
      }
      ghost var s0 := bytesScanned;
      var scanned, starts, logical;
      scanned, starts, logical, symbols := ScanLines(original, bytesToScan, bytesScanned, lineStarts, logicalLines, lineBudget);
      StartsBetweenJoin(original, bytesToScan, 0, s0, scanned);
      PrependZero(original, bytesToScan, scanned);
      bytesScanned := scanned;
      lineStarts := starts;
      logicalLines := logical;
    }

    /** `get_line`: the line at `index`, as written (see GetLineOf). */
    function GetLine(index: nat): (r: Option<seq<u8>>)
      requires Valid()
      reads this
      ensures r.None? <==> index >= logicalLines
      ensures r.Some? && index + 1 < |lineStarts| ==> r.value == original[lineStarts[index]..lineStarts[index + 1] - 1]
      ensures r.Some? && index + 1 == |lineStarts| ==> r.value == original[lineStarts[index]..bytesToScan - 1]
      ensures r.Some? && index + 1 < |lineStarts| ==> r == GetLineFixed(index)
    {
      if lineStarts != [] then
        StartsBetweenShape(original, bytesToScan, 0, bytesScanned);
        assert index + 1 < |lineStarts| ==> lineStarts[index + 1] == StartsBetween(original, bytesToScan, 0, bytesScanned)[index];
        assert index + 1 < |lineStarts| ==> original[lineStarts[index + 1] - 1] == NL;
        GetLineOf(original, bytesToScan, lineStarts, logicalLines, index)
      else
        GetLineOf(original, bytesToScan, lineStarts, logicalLines, index)
    }

    /** The corrected `get_line` (see GetLineFixedOf). */
    function GetLineFixed(index: nat): (r: Option<seq<u8>>)
      requires Valid()
      reads this
      ensures r.None? <==> index >= |lineStarts| || bytesToScan == 0
    {
      GetLineFixedOf(original, bytesToScan, lineStarts, index)
    }
  }

  /** "a\nb" scanned in full: the second line is returned empty, its only byte dropped. */
  lemma GetLineDropsLastByte()
    ensures var c: seq<u8> := [97, 10, 98];
            && AllStarts(c, 3) == [0, 2]
            && GetLineOf(c, 3, [0, 2], 2, 1) == Some([])
            && GetLineFixedOf(c, 3, [0, 2], 1) == Some([98])
  {
    var c: seq<u8> := [97, 10, 98];
    assert StartsBetween(c, 3, 0, 1) == [];
    assert StartsBetween(c, 3, 0, 2) == [2];
    assert StartsBetween(c, 3, 0, 3) == [2];
    assert c[2..3] == [98];
  }

  /** "nop\n" scanned in full: one recorded line, yet the logical line count stays 0 and line 0 is not found. */
  lemma SingleLineHasNoLogicalLine()
    ensures var c: seq<u8> := [110, 111, 112, 10];
            && AllStarts(c, 4) == [0]
            && GetLineOf(c, 4, [0], 0, 0) == Option.None
            && GetLineFixedOf(c, 4, [0], 0) == Some([110, 111, 112])
  {
    var c: seq<u8> := [110, 111, 112, 10];
    assert StartsBetween(c, 4, 0, 1) == [];
    assert StartsBetween(c, 4, 0, 2) == [];
    assert StartsBetween(c, 4, 0, 3) == [];
    assert StartsBetween(c, 4, 0, 4) == [];
    assert c[0..3] == [110, 111, 112];
  }
}
