/** The streaming substring matcher that looks for the build id, and its budget. */
module Kmp {
  import opened Text
  import opened Hex

  // ---------- borders and matches ----------

  /** The first `k` needle bytes are the last `k` bytes of `t`. */
  predicate Ends(needle: seq<byte>, t: seq<byte>, k: nat)
  {
    k <= |needle| && k <= |t| && needle[..k] == t[|t| - k..]
  }

  /** `m` is the longest needle prefix that ends `t`. */
  ghost predicate Best(needle: seq<byte>, t: seq<byte>, m: nat)
  {
    Ends(needle, t, m) && forall k: nat :: Ends(needle, t, k) ==> k <= m
  }

  /** A proper border of `needle[..len]` is a needle prefix that ends it and is
      shorter; dropping the first byte says exactly that. */
  ghost predicate LongestBorder(needle: seq<byte>, len: nat, b: nat)
    requires 1 <= len <= |needle|
  {
    Best(needle, needle[1..len], b)
  }

  /** The table for the first `n` prefixes. */
  ghost predicate PrefixTable(needle: seq<byte>, prefix: seq<nat>, n: nat)
  {
    n <= |prefix| && n <= |needle| && forall i :: 0 <= i < n ==> LongestBorder(needle, i + 1, prefix[i])
  }

  predicate Border(needle: seq<byte>, len: nat, k: nat)
  {
    k < len <= |needle| && needle[..k] == needle[len - k..len]
  }

  /** The table entry in textbook terms. */
  lemma LongestBorderMeaning(needle: seq<byte>, len: nat, b: nat)
    requires 1 <= len <= |needle|
    ensures LongestBorder(needle, len, b) <==> Border(needle, len, b) && forall k: nat :: Border(needle, len, k) ==> k <= b
  {
    forall k: nat ensures Ends(needle, needle[1..len], k) <==> Border(needle, len, k) {
      if k < len {
        assert needle[1..len][len - 1 - k..] == needle[len - k..len];
      }
    }
  }

  lemma EndsSnoc(needle: seq<byte>, t: seq<byte>, c: byte, k: nat)
    ensures Ends(needle, t + [c], k + 1) <==> Ends(needle, t, k) && k < |needle| && needle[k] == c
  {
    if k < |needle| && k <= |t| {
      var s := t + [c];
      assert s[|s| - (k + 1)..] == t[|t| - k..] + [c];
      assert needle[..k + 1] == needle[..k] + [needle[k]];
    }
  }

  /** Shorter matches behind a match of length `m` are the borders of `needle[..m]`. */
  lemma EndsBehind(needle: seq<byte>, t: seq<byte>, m: nat, k: nat)
    requires Ends(needle, t, m) && k < m
    ensures Ends(needle, t, k) <==> Ends(needle, needle[1..m], k)
  {
    assert t[|t| - k..] == t[|t| - m..][m - k..];
    assert needle[1..m][m - 1 - k..] == needle[..m][m - k..];
  }

  /** No longer candidate can be extended by `c`. */
  ghost predicate Exhausted(needle: seq<byte>, t: seq<byte>, c: byte, m: nat)
  {
    forall k: nat :: k > m && Ends(needle, t, k) && k < |needle| ==> needle[k] != c
  }

  lemma FallBack(needle: seq<byte>, t: seq<byte>, c: byte, m: nat, b: nat)
    requires 0 < m < |needle| && Ends(needle, t, m) && Exhausted(needle, t, c, m) && needle[m] != c
    requires LongestBorder(needle, m, b)
    ensures b < m && Ends(needle, t, b) && Exhausted(needle, t, c, b)
  {
    hide Ends;
    BestBound(needle, needle[1..m], b);
    EndsBehind(needle, t, m, b);
    forall k: nat | k > b && Ends(needle, t, k) && k < |needle| ensures needle[k] != c {
      if k < m {
        EndsBehind(needle, t, m, k);
      }
    }
  }

  lemma BestBound(needle: seq<byte>, t: seq<byte>, b: nat)
    requires Best(needle, t, b)
    ensures b <= |t|
  {
  }

  lemma Settle(needle: seq<byte>, t: seq<byte>, c: byte, m: nat)
    requires |needle| > 0 && m < |needle| && Ends(needle, t, m) && Exhausted(needle, t, c, m)
    requires m == 0 || needle[m] == c
    ensures Best(needle, t + [c], if needle[m] == c then m + 1 else 0)
  {
    var r := if needle[m] == c then m + 1 else 0;
    EndsSnoc(needle, t, c, m);
    forall k: nat | Ends(needle, t + [c], k) ensures k <= r {
      if k > 0 {
        EndsSnoc(needle, t, c, k - 1);
      }
    }
    assert r == 0 ==> Ends(needle, t + [c], 0) by {
      var s := t + [c];
      assert needle[..0] == s[|s|..];
    }
  }

  /** Consume one byte: fall back until the byte extends the match, then extend.
      Fallbacks are paid for by earlier progress. */
  method Advance(needle: seq<byte>, prefix: seq<nat>, ghost t: seq<byte>, matched: nat, c: byte)
    returns (next: nat, ghost fallbacks: nat)
    requires matched < |needle| && PrefixTable(needle, prefix, matched) && Best(needle, t, matched)
    ensures Best(needle, t + [c], next) && next <= matched + 1
    ensures fallbacks + next <= matched + 1
  {
    hide Ends, LongestBorder;
    next, fallbacks := matched, 0;
    while next > 0 && c != needle[next]
      invariant next <= matched && Ends(needle, t, next) && Exhausted(needle, t, c, next)
      invariant fallbacks + next <= matched
      decreases next
    {
      FallBack(needle, t, c, next, prefix[next - 1]);
      next := prefix[next - 1];
      fallbacks := fallbacks + 1;
    }
    Settle(needle, t, c, next);
    next := if needle[next] == c then next + 1 else next;
  }

  lemma NoProgressYet(needle: seq<byte>)
    ensures Best(needle, [], 0)
  {
  }

  lemma TableEntry(needle: seq<byte>, prefix: seq<nat>, n: nat, b: nat)
    requires n < |needle| && PrefixTable(needle, prefix, n) && |prefix| == |needle|
    requires LongestBorder(needle, n + 1, b)
    ensures PrefixTable(needle, prefix[n := b], n + 1)
  {
    hide LongestBorder;
  }

  /** `kmp_prefix`: the table of longest proper borders of every needle prefix. */
  method BuildPrefix(needle: seq<byte>) returns (prefix: seq<nat>)
    ensures |prefix| == |needle| && PrefixTable(needle, prefix, |needle|)
  {
    prefix := seq(|needle|, _ => 0);
    if |needle| == 0 {
      return;
    }
    var matched: nat := 0;
    NoProgressYet(needle);
    assert needle[1..1] == [];
    TableEntry(needle, prefix, 0, 0);
    assert prefix[0 := 0] == prefix;
    hide Best;
    for index := 1 to |needle|
      invariant |prefix| == |needle| && PrefixTable(needle, prefix, index)
      invariant Best(needle, needle[1..index], matched) && matched < index
    {
      assert PrefixTable(needle, prefix, matched);
      ghost var steps;
      matched, steps := Advance(needle, prefix, needle[1..index], matched, needle[index]);
      assert needle[1..index] + [needle[index]] == needle[1..index + 1];
      TableEntry(needle, prefix, index, matched);
      prefix := prefix[index := matched];
    }
  }

  // ---------- scanning a range in chunks ----------

  predicate At(needle: seq<byte>, text: seq<byte>, i: nat)
  {
    i + |needle| <= |text| && text[i..i + |needle|] == needle
  }

  ghost predicate Occurs(needle: seq<byte>, text: seq<byte>)
  {
    exists i: nat :: At(needle, text, i)
  }

  lemma AtSnoc(needle: seq<byte>, t: seq<byte>, c: byte, i: nat)
    requires |needle| > 0
    ensures At(needle, t, i) ==> At(needle, t + [c], i)
    ensures At(needle, t + [c], i) ==> At(needle, t, i) || Ends(needle, t + [c], |needle|)
  {
    var s := t + [c];
    if i + |needle| <= |t| {
      assert s[i..i + |needle|] == t[i..i + |needle|];
    } else if i + |needle| == |s| {
      assert needle[..|needle|] == needle;
      assert s[|s| - |needle|..] == s[i..i + |needle|];
    }
  }

  lemma EndsIsAt(needle: seq<byte>, s: seq<byte>)
    requires Ends(needle, s, |needle|)
    ensures At(needle, s, |s| - |needle|)
  {
    assert needle[..|needle|] == needle;
    assert s[|s| - |needle|..] == s[|s| - |needle|..|s| - |needle| + |needle|];
  }

  /** A longer text holds the needle exactly when the shorter one did or it ends here. */
  lemma OccursSnoc(needle: seq<byte>, t: seq<byte>, c: byte)
    requires |needle| > 0
    ensures Occurs(needle, t + [c]) <==> Occurs(needle, t) || Ends(needle, t + [c], |needle|)
  {
    hide At, Ends;
    forall i: nat ensures At(needle, t, i) ==> At(needle, t + [c], i)
                  ensures At(needle, t + [c], i) ==> At(needle, t, i) || Ends(needle, t + [c], |needle|) {
      AtSnoc(needle, t, c, i);
    }
    if Ends(needle, t + [c], |needle|) {
      EndsFits(needle, t + [c]);
      EndsIsAt(needle, t + [c]);
    }
  }

  lemma EndsFits(needle: seq<byte>, s: seq<byte>)
    requires Ends(needle, s, |needle|)
    ensures |needle| <= |s|
  {
  }

  lemma NotOccursEmpty(needle: seq<byte>)
    requires |needle| > 0
    ensures !Occurs(needle, [])
  {
    assert forall i: nat :: !At(needle, [], i);
  }

  lemma {:induction false} OccursPrefix(needle: seq<byte>, text: seq<byte>, n: nat)
    requires n <= |text| && Occurs(needle, text[..n])
    ensures Occurs(needle, text)
  {
    var i: nat :| At(needle, text[..n], i);
    assert text[..n][i..i + |needle|] == text[i..i + |needle|];
    assert At(needle, text, i);
  }

  /** The bytes of a file that a range can actually read. */
  function Readable(file: seq<byte>, off: nat, len: nat): seq<byte>
  {
    var lo := if off < |file| then off else |file|;
    var hi := if off + len < |file| then off + len else |file|;
    file[lo..hi]
  }

  datatype Scan = Found | Absent | Failed

  /** Feed one chunk to the matcher. */
  method ScanChunk(needle: seq<byte>, prefix: seq<nat>, chunk: seq<byte>, ghost seen: seq<byte>, matched: nat)
    returns (found: bool, next: nat, ghost fallbacks: nat)
    requires 0 < |needle| && PrefixTable(needle, prefix, |needle|)
    requires matched < |needle| && Best(needle, seen, matched) && !Occurs(needle, seen)
    ensures found <==> Occurs(needle, seen + chunk)
    ensures !found ==> next < |needle| && Best(needle, seen + chunk, next)
    ensures fallbacks + (if found then 0 else next) <= matched + |chunk|
  {
    hide Best, Occurs, Ends;
    found, next, fallbacks := false, matched, 0;
    assert seen + chunk[..0] == seen;
    for k := 0 to |chunk|
      invariant next < |needle| && Best(needle, seen + chunk[..k], next) && !Occurs(needle, seen + chunk[..k])
      invariant fallbacks + next <= matched + k
    {
      ghost var t := seen + chunk[..k];
      assert t + [chunk[k]] == seen + chunk[..k + 1];
      assert PrefixTable(needle, prefix, next);
      ghost var steps;
      next, steps := Advance(needle, prefix, t, next, chunk[k]);
      fallbacks := fallbacks + steps;
      OccursSnoc(needle, t, chunk[k]);
      BestFull(needle, t + [chunk[k]], next);
      if next == |needle| {
        assert (seen + chunk)[..|seen| + k + 1] == seen + chunk[..k + 1];
        OccursPrefix(needle, seen + chunk, |seen| + k + 1);
        found := true;
        return;
      }
    }
    assert chunk[..|chunk|] == chunk;
  }

  lemma BestFull(needle: seq<byte>, t: seq<byte>, m: nat)
    requires Best(needle, t, m)
    ensures m <= |needle| && (m == |needle| <==> Ends(needle, t, |needle|))
  {
  }

  /** `scan_with_prefix`, for any buffer size. A range inside the file is decided
      exactly, wherever the chunk boundaries fall, with at most one fallback per
      byte read; a range that leaves the file fails unless the needle was found in
      the part already read. */
  method ScanWithPrefix(file: seq<byte>, off: nat, len: nat, needle: seq<byte>, prefix: seq<nat>, buffer: nat)
    returns (r: Scan, ghost fallbacks: nat, ghost bytesRead: nat)
    requires buffer > 0 && |file| < U64_LIMIT && off < U64_LIMIT && len < U64_LIMIT
    requires |prefix| == |needle| ==> PrefixTable(needle, prefix, |needle|)
    ensures r == Found ==> |needle| > 0 && Occurs(needle, Readable(file, off, len))
    ensures r == Absent ==> |needle| > 0 && !Occurs(needle, Readable(file, off, len)) && (len > 0 ==> off + len <= |file|)
    ensures r == Failed ==> |needle| == 0 || |prefix| != |needle| || off + len > |file|
    ensures bytesRead <= len && fallbacks <= bytesRead
  {
    hide Best, Occurs, Ends, PrefixTable, Readable;
    r, fallbacks, bytesRead := Failed, 0, 0;
    if |needle| == 0 || |prefix| != |needle| {
      return;
    }
    var cursor: nat, matched: nat := 0, 0;
    NoProgressYet(needle);
    NotOccursEmpty(needle);
    ghost var data := Readable(file, off, len);
    assert data[..0] == [];
    while cursor < len
      invariant cursor <= len && bytesRead == cursor <= |data| && (cursor > 0 ==> off + cursor <= |file|)
      invariant matched < |needle| && Best(needle, data[..cursor], matched) && !Occurs(needle, data[..cursor])
      invariant fallbacks + matched <= cursor
      decreases len - cursor
    {
      var n := if len - cursor < buffer then len - cursor else buffer;
      if off + cursor >= U64_LIMIT || off + cursor + n > |file| {
        return;
      }
      var chunk := file[off + cursor..off + cursor + n];
      ReadableSlice(file, off, len, cursor, n);
      var found;
      ghost var steps;
      found, matched, steps := ScanChunk(needle, prefix, chunk, data[..cursor], matched);
      fallbacks, bytesRead, cursor := fallbacks + steps, bytesRead + n, cursor + n;
      if found {
        OccursPrefix(needle, data, cursor);
        r := Found;
        return;
      }
    }
    ReadableAll(file, off, len, cursor);
    r := Absent;
  }

  lemma ReadableSlice(file: seq<byte>, off: nat, len: nat, cursor: nat, n: nat)
    requires cursor + n <= len && off + cursor + n <= |file|
    ensures cursor + n <= |Readable(file, off, len)|
    ensures Readable(file, off, len)[..cursor] + file[off + cursor..off + cursor + n] == Readable(file, off, len)[..cursor + n]
  {
    var data := Readable(file, off, len);
    assert forall i :: 0 <= i < cursor + n ==> data[i] == file[off + i];
  }

  lemma ReadableAll(file: seq<byte>, off: nat, len: nat, cursor: nat)
    requires len <= cursor <= |Readable(file, off, len)|
    ensures Readable(file, off, len)[..cursor] == Readable(file, off, len)
  {
  }

  // ---------- budgets over the whole archive ----------

  const MAX_SCAN_RANGES: nat := 65536
  const MAX_SECTIONS_TOTAL: nat := 262144
  const MAX_SYMBOLS: nat := 262144
  const SCAN_BUFFER: nat := 65536

  datatype Range = Range(off: nat, len: nat)

  function TotalLength(ranges: seq<Range>): nat
  {
    if |ranges| == 0 then 0 else TotalLength(ranges[..|ranges| - 1]) + ranges[|ranges| - 1].len
  }

  lemma TotalSnoc(ranges: seq<Range>, r: Range)
    ensures TotalLength(ranges + [r]) == TotalLength(ranges) + r.len
  {
    assert (ranges + [r])[..|ranges|] == ranges;
  }

  ghost predicate SomeContains(file: seq<byte>, id: seq<byte>, ranges: seq<Range>)
  {
    exists k :: 0 <= k < |ranges| && Occurs(id, Readable(file, ranges[k].off, ranges[k].len))
  }

  lemma SomeContainsSnoc(file: seq<byte>, id: seq<byte>, ranges: seq<Range>, r: Range)
    ensures SomeContains(file, id, ranges + [r]) <==>
            SomeContains(file, id, ranges) || Occurs(id, Readable(file, r.off, r.len))
  {
    hide Occurs, Readable;
    var longer := ranges + [r];
    if SomeContains(file, id, ranges) {
      var k :| 0 <= k < |ranges| && Occurs(id, Readable(file, ranges[k].off, ranges[k].len));
      assert longer[k] == ranges[k];
    }
    assert longer[|ranges|] == r;
    if SomeContains(file, id, longer) {
      var k :| 0 <= k < |longer| && Occurs(id, Readable(file, longer[k].off, longer[k].len));
      if k < |ranges| {
        assert longer[k] == ranges[k];
      }
    }
  }

  /** The evidence gathered over all members of one archive. `charged` is the
      history of ranges given to the build-id scan; `file` and `id` are fixed. */
  class Evidence {
    const file: seq<byte>
    const id: seq<byte>
    const scanLimit: nat
    const required: set<seq<byte>>
    var symbols: set<seq<byte>>
    var symbolCount: nat
    var buildId: bool
    var scanBytes: nat
    var scanRanges: nat
    var prefix: seq<nat>
    var sectionCount: nat
    ghost var charged: seq<Range>

    ghost predicate Valid()
      reads this
    {
      && |file| < U64_LIMIT && scanLimit < U64_LIMIT && |id| > 0
      && |prefix| == |id| && PrefixTable(id, prefix, |id|)
      && (buildId <==> SomeContains(file, id, charged))
      && scanBytes == TotalLength(charged) <= scanLimit
      && scanRanges == |charged| <= MAX_SCAN_RANGES
      && sectionCount <= MAX_SECTIONS_TOTAL && symbolCount <= MAX_SYMBOLS && symbols <= required
    }

    constructor (file: seq<byte>, id: seq<byte>, scanLimit: nat, required: set<seq<byte>>)
      requires |file| < U64_LIMIT && scanLimit < U64_LIMIT && |id| > 0
      ensures Valid() && charged == [] && !buildId && scanBytes == 0 && symbols == {} && symbolCount == 0
      ensures this.file == file && this.id == id && this.scanLimit == scanLimit && this.required == required
    {
      this.file, this.id, this.scanLimit, this.required := file, id, scanLimit, required;
      symbols, symbolCount, buildId, scanBytes, scanRanges, sectionCount := {}, 0, false, 0, 0, 0;
      charged := [];
      var table := BuildPrefix(id);
      prefix := table;
    }

    /** `scan_build_id`: charge the whole range first, then scan unless the id was
        already seen. While this succeeds, the flag says exactly whether some
        charged range holds the id, and all charges stay within their limits. */
    method ScanBuildId(off: nat, len: nat) returns (ok: bool)
      requires Valid() && off < U64_LIMIT && len < U64_LIMIT
      modifies this`scanRanges, this`scanBytes, this`buildId, this`charged
      ensures ok ==> Valid() && charged == old(charged) + [Range(off, len)]
      ensures !ok ==> |old(charged)| == MAX_SCAN_RANGES || TotalLength(old(charged)) + len > scanLimit || off + len > |file|
    {
      hide PrefixTable, SomeContains, Occurs, TotalLength;
      if scanRanges + 1 > MAX_SCAN_RANGES {
        return false;
      }
      scanRanges := scanRanges + 1;
      var next := scanBytes + len;
      if next > scanLimit {
        return false;
      }
      scanBytes := next;
      TotalSnoc(charged, Range(off, len));
      SomeContainsSnoc(file, id, charged, Range(off, len));
      if !buildId {
        ghost var fallbacks, bytesRead;
        var r;
        r, fallbacks, bytesRead := ScanWithPrefix(file, off, len, id, prefix, SCAN_BUFFER);
        if r == Failed {
          return false;
        }
        buildId := r == Found;
      }
      charged := charged + [Range(off, len)];
      ok := true;
    }

    /** `charge_sections`. */
    method ChargeSections(count: nat) returns (ok: bool)
      requires Valid()
      modifies this`sectionCount
      ensures ok <==> old(sectionCount) + count <= MAX_SECTIONS_TOTAL
      ensures ok ==> Valid() && sectionCount == old(sectionCount) + count
    {
      var next := sectionCount + count;
      if next >= U64_LIMIT || next > MAX_SECTIONS_TOTAL {
        return false;
      }
      sectionCount := next;
      ok := true;
    }

    /** `record_symbol`: every symbol is charged, a required one may be defined once. */
    method RecordSymbol(name: seq<byte>, defined: bool, external: bool) returns (ok: bool)
      requires Valid()
      modifies this`symbolCount, this`symbols
      ensures ok <==> old(symbolCount) < MAX_SYMBOLS && !(defined && external && name in required && name in old(symbols))
      ensures ok ==> Valid() && symbolCount == old(symbolCount) + 1
      ensures ok ==> symbols == old(symbols) + if defined && external && name in required then {name} else {}
    {
      if symbolCount + 1 > MAX_SYMBOLS {
        return false;
      }
      symbolCount := symbolCount + 1;
      if defined && external && name in required {
        if name in symbols {
          return false;
        }
        symbols := symbols + {name};
      }
      ok := true;
    }
  }
}
