/** Exactly when `wzip` is lossless beyond a single NUL-free file: several files, and NULs. */
module WzipExact {
  import opened Basics
  import opened Wzip
  import opened WzipProgram
  import opened WzipRle
  import opened WzipText

  // ---- Any one step of the scanner ----

  /** A step prints the token it has or nothing; what it adds to the token it keeps. */
  lemma StepPrints(sc: Scan, f: seq<Byte>, i: nat)
    requires i < |f| && sc.t.count >= 1
    ensures var sc' := Step(sc, f, i);
      sc'.lstch == f[i] && (sc'.printed == sc.printed || sc'.printed == sc.printed + [sc.t])
  {
  }

  lemma StepSize(sc: Scan, f: seq<Byte>, i: nat)
    requires i < |f| && sc.t.count >= 1
    ensures var sc' := Step(sc, f, i);
      Size(Tokens(sc')) == Size(Tokens(sc)) + sc'.t.count - (if sc'.printed == sc.printed then sc.t.count else 0)
  {
    var sc' := Step(sc, f, i);
    StepPrints(sc, f, i);
    TokensSplit(sc);
    TokensSplit(sc');
    SizeAppend(AsRuns(sc.printed), AsRun(sc.t));
    SizeAppend(AsRuns(sc'.printed), AsRun(sc'.t));
    assert sc'.printed == sc.printed + [sc.t] ==> AsRuns(sc'.printed) == Tokens(sc);
  }

  lemma TokensSplit(sc: Scan)
    ensures Tokens(sc) == AsRuns(sc.printed) + [AsRun(sc.t)]
  {
  }

  /** A step that prints appends its new token's characters; one that does not makes the token longer. */
  lemma StepDecodes(sc: Scan, f: seq<Byte>, i: nat)
    requires i < |f| && sc.t.count >= 1
    ensures var sc' := Step(sc, f, i);
      && (sc'.printed != sc.printed ==> Decode(Tokens(sc')) == Decode(Tokens(sc)) + Repeat(sc'.t.count, sc'.t.ch))
      && (sc'.printed == sc.printed && sc'.t.ch == sc.t.ch && sc'.t.count >= sc.t.count ==>
            Decode(Tokens(sc')) == Decode(Tokens(sc)) + Repeat(sc'.t.count - sc.t.count, sc.t.ch))
  {
    var sc' := Step(sc, f, i);
    StepPrints(sc, f, i);
    TokensSplit(sc);
    TokensSplit(sc');
    if sc'.printed != sc.printed {
      assert AsRuns(sc'.printed) == Tokens(sc);
      DecodeAppend(Tokens(sc), AsRun(sc'.t));
    } else if sc'.t.ch == sc.t.ch && sc'.t.count >= sc.t.count {
      DecodeAppend(AsRuns(sc.printed), AsRun(sc.t));
      DecodeAppend(AsRuns(sc.printed), AsRun(sc'.t));
      assert Repeat(sc'.t.count, sc.t.ch) == Repeat(sc.t.count, sc.t.ch) + Repeat(sc'.t.count - sc.t.count, sc.t.ch);
    }
  }

  // ---- Several files ----

  /** Every later non-empty file begins with the last character read before it. */
  ghost predicate Matching(files: seq<seq<Byte>>)
  {
    forall i | 0 < i < |files| && files[i] != [] && Concat(files[..i]) != [] ::
      files[i][0] == Concat(files[..i])[|Concat(files[..i])| - 1]
  }

  /** Two sequences that differ at some position; no extension of them can be equal. */
  ghost predicate Differ(a: seq<Byte>, b: seq<Byte>)
  {
    exists k: nat :: k < |a| && k < |b| && a[k] != b[k]
  }

  lemma DifferGrows(a: seq<Byte>, b: seq<Byte>, x: seq<Byte>, y: seq<Byte>)
    requires Differ(a, b) && a <= x && b <= y
    ensures Differ(x, y)
  {
    var k: nat :| k < |a| && k < |b| && a[k] != b[k];
    assert x[k] == a[k] && y[k] == b[k];
  }

  lemma MatchingPrefix(files: seq<seq<Byte>>)
    requires |files| > 1
    ensures var n := |files| - 1;
      var all := Concat(files[..n]);
      Matching(files) <==> (Matching(files[..n]) && (files[n] != [] && all != [] ==> files[n][0] == all[|all| - 1]))
  {
    var n := |files| - 1;
    assert forall i | 0 <= i <= n :: files[..n][..i] == files[..i];
  }

  /** Text `d` of `all` read, and then one more file `f`. */
  lemma NextText(d: seq<Byte>, all: seq<Byte>, f: seq<Byte>, matching: bool)
    requires all != [] && d != [] && if matching then d == all else Differ(d, all)
    ensures var d' := d + Carried(d[|d| - 1], f);
      if matching && (f != [] ==> f[0] == all[|all| - 1]) then d' == all + f else Differ(d', all + f)
  {
    var d' := d + Carried(d[|d| - 1], f);
    if !matching {
      DifferGrows(d, all, d', all + f);
    } else if f != [] && f[0] != d[|d| - 1] {
      assert d'[|d|] == d[|d| - 1] && (all + f)[|all|] == f[0];
    }
  }

  /** The text is what was read exactly if the files match; if not, the two differ somewhere. */
  lemma {:induction false} TextExactly(files: seq<seq<Byte>>)
    requires files != [] && files[0] != []
    ensures Text(files) != [] && Concat(files) != []
    ensures if Matching(files) then Text(files) == Concat(files) else Differ(Text(files), Concat(files))
  {
    var n := |files| - 1;
    if n == 0 {
      assert files[..0] == [] && Concat(files) == [] + files[0];
    } else {
      TextExactly(files[..n]);
      MatchingPrefix(files);
      NextText(Text(files[..n]), Concat(files[..n]), files[n], Matching(files[..n]));
    }
  }

  lemma NextMatching(rs: seq<Run>, f: seq<Byte>, n: nat, s: seq<Byte>)
    requires n < |f| && f[n] != 0 && RunsAfter(rs, f, n) == Encode(s) && (n > 0 ==> s != [])
    requires s != [] ==> s[|s| - 1] == (if n == 0 then f[0] else f[n - 1]) != 0
    ensures RunsAfter(rs, f, n + 1) == Encode(s + [f[n]])
  {
    EncodeShape(s);
    EncodeAppend(s, f[n]);
    NextEncoded(Encode(s), s, Before(f, n), f[n], LineStart(f, n));
  }

  lemma ReadBefore(all: seq<Byte>, f: seq<Byte>, n: nat)
    requires 0 < n <= |f| && (all != [] ==> f[0] == all[|all| - 1])
    ensures var s := all + f[..n - 1];
      all + f[..n] == s + [f[n - 1]] && (s != [] ==> s[|s| - 1] == if n == 1 then f[0] else f[n - 2])
  {
    assert n == 1 ==> all + f[..n - 1] == all;
  }

  /** Reading a file that matches only extends the encoding of what has been read. */
  lemma {:induction false} MatchingRuns(all: seq<Byte>, f: seq<Byte>, n: nat, read: seq<Byte>)
    requires n <= |f| && NulFree(f) && (all != [] && f != [] ==> f[0] == all[|all| - 1])
    requires read == all + f[..n]
    ensures RunsAfter(Encode(all), f, n) == Encode(read)
  {
    if n == 0 {
      assert read == all;
    } else {
      var before := all + f[..n - 1];
      ReadBefore(all, f, n);
      MatchingRuns(all, f, n - 1, before);
      NextMatching(Encode(all), f, n - 1, before);
    }
  }

  lemma NextEncoded(rs: seq<Run>, s: seq<Byte>, l: Byte, x: Byte, start: bool)
    requires x != 0 && (s == [] <==> rs == []) && (rs != [] ==> Last(rs).ch == s[|s| - 1] != 0)
    requires rs != [] ==> l == Last(rs).ch || (start && l == 0 && Last(rs).ch == x)
    ensures NextRuns(rs, l, x, start) == Extend(rs, x)
  {
  }

  lemma {:induction false} FilesEncoded(files: seq<seq<Byte>>)
    requires AllNulFree(files) && Matching(files)
    ensures FilesRuns(files) == Encode(Concat(files)) && NulFree(Concat(files))
  {
    if files != [] {
      var n := |files| - 1;
      if n > 0 {
        MatchingPrefix(files);
      }
      FilesEncoded(files[..n]);
      assert files[n][..|files[n]|] == files[n];
      MatchingRuns(Concat(files[..n]), files[n], |files[n]|, Concat(files));
    }
  }

  /** NUL-free files of any length, the first not empty, each later one that is not empty beginning with
      the last character read before it: while no run is too long the program ends, having printed the
      canonical encoding of their concatenation. */
  lemma {:induction false} ManyFilesCanonical(files: seq<seq<Byte>>)
    requires files != [] && files[0] != [] && AllNulFree(files) && Matching(files) && ShortRuns(Concat(files))
    ensures Prints(Opened(files), Zipped(files)) && AsRuns(Zipped(files)) == Encode(Concat(files))
    ensures Canonical(Encode(Concat(files))) && Unzip(Print(Zipped(files))) == Concat(files)
    ensures |Print(Zipped(files))| == 5 * |Encode(Concat(files))| <= 5 * |Concat(files)|
  {
    FilesEncoded(files);
    ExactRuns(files);
    EncodeCanonical(Concat(files));
    PrintBack(Zipped(files));
    UnzipPrint(Zipped(files));
    assert |AsRuns(Zipped(files))| == |Zipped(files)|;
  }

  /** Files without NULs, the first not empty, none of whose runs is too long for its count (so it is if
      they have less than 2^32 bytes together, `FilesBounded`). The program ends, having printed something
      that decodes to their concatenation, exactly when every later non-empty file begins with the last
      character read before it; it has then printed the canonical encoding, five bytes for each run
      and at most five for each character. */
  lemma {:induction false} ManyFilesRoundTrip(files: seq<seq<Byte>>)
    requires files != [] && files[0] != [] && AllNulFree(files) && Short(FilesRuns(files))
    ensures (exists ts :: Prints(Opened(files), ts) && Unzip(Print(ts)) == Concat(files)) <==> Matching(files)
    ensures Matching(files) ==> Prints(Opened(files), Zipped(files)) && AsRuns(Zipped(files)) == Encode(Concat(files))
    ensures Matching(files) ==>
      Canonical(Encode(Concat(files))) && |Print(Zipped(files))| == 5 * |Encode(Concat(files))| <= 5 * |Concat(files)|
  {
    ManyFilesText(files);
    TextExactly(files);
    forall ts
      ensures Prints(Opened(files), ts) <==> EachCounted(files) && ts == Zipped(files)
    {
      PrintsExactly(files, ts);
    }
    if Matching(files) {
      FilesEncoded(files);
      ManyFilesCanonical(files);
    }
  }

  // ---- NULs ----

  /** The NUL at position `i` is printed, and what follows it is not lost: it begins a line, and it
      is the last character or two equal characters of its line follow it. */
  predicate HarmlessNul(f: seq<Byte>, n: nat, i: nat)
    requires i < n <= |f|
  {
    && LineStart(f, i)
    && (i + 2 < n ==> f[i + 1] == f[i + 2] && f[i + 1] != 0 && f[i + 1] != NEWLINE)
  }

  ghost predicate Harmless(f: seq<Byte>, n: nat)
    requires n <= |f|
  {
    forall i: nat | i < n && f[i] == 0 :: HarmlessNul(f, n, i)
  }

  /** A character dropped after a NUL that the next step may still make up for. */
  function Pending(sc: Scan): nat
  {
    if sc.lstch != 0 && sc.t.ch != sc.lstch then 1 else 0
  }

  /** How the scanner stands after `n` characters: exact, just after a NUL, one character behind
      after a NUL, or behind for good. */
  ghost predicate NulOk(f: seq<Byte>, n: nat, sc: Scan)
    requires 0 < n <= |f|
  {
    && sc.lstch == f[n - 1] && 1 <= sc.t.count
    && if !Harmless(f, n) then Size(Tokens(sc)) + 1 + Pending(sc) <= n
       else if f[n - 1] == 0 then sc.t == Token(1, 0) && Decode(Tokens(sc)) == f[..n]
       else if n > 1 && f[n - 2] == 0 then sc.t == Token(1, 0) && Decode(Tokens(sc)) == f[..n - 1]
       else sc.t.ch == f[n - 1] && Decode(Tokens(sc)) == f[..n]
  }

  /** Once behind, always behind. */
  lemma StillBehind(f: seq<Byte>, n: nat, sc: Scan)
    requires 0 < n < |f| && sc.lstch == f[n - 1] && 1 <= sc.t.count < WRAP - 1
    requires Size(Tokens(sc)) + 1 + Pending(sc) <= n
    ensures Size(Tokens(Step(sc, f, n))) + 1 + Pending(Step(sc, f, n)) <= n + 1
  {
    StepSize(sc, f, n);
  }

  /** Reading one more character: it must not be a NUL inside a line, and if it is the second after
      a NUL it must be the same as the first. */
  predicate HarmlessNext(f: seq<Byte>, n: nat)
    requires n < |f|
  {
    && (f[n] == 0 ==> LineStart(f, n))
    && (n > 1 && f[n - 2] == 0 ==> f[n - 1] == f[n] && f[n - 1] != 0 && f[n - 1] != NEWLINE)
  }

  lemma HarmlessStep(f: seq<Byte>, n: nat)
    requires 0 < n < |f|
    ensures Harmless(f, n + 1) <==> (Harmless(f, n) && HarmlessNext(f, n))
  {
    if Harmless(f, n + 1) {
      forall i: nat | i < n && f[i] == 0
        ensures HarmlessNul(f, n, i)
      {
        assert HarmlessNul(f, n + 1, i);
      }
      assert f[n] == 0 ==> HarmlessNul(f, n + 1, n);
      assert n > 1 && f[n - 2] == 0 ==> HarmlessNul(f, n + 1, n - 2);
    } else {
      var i: nat :| i < n + 1 && f[i] == 0 && !HarmlessNul(f, n + 1, i);
      assert i < n ==> HarmlessNul(f, n, i) || !Harmless(f, n);
    }
  }

  /** In step at a character that is not NUL: only a NUL inside a line is lost. */
  lemma FromExact(f: seq<Byte>, n: nat, sc: Scan)
    requires 0 < n < |f| && sc.lstch == f[n - 1] && 1 <= sc.t.count < WRAP - 1
    requires f[n - 1] != 0 && sc.t.ch == f[n - 1] && Decode(Tokens(sc)) == f[..n]
    ensures var sc' := Step(sc, f, n);
      if f[n] == 0 && !LineStart(f, n) then Size(Tokens(sc')) + 1 + Pending(sc') <= n + 1
      else sc'.t.ch == f[n] && Decode(Tokens(sc')) == f[..n + 1] && (f[n] == 0 ==> sc'.t == Token(1, 0))
  {
    StepDecodes(sc, f, n);
    StepSize(sc, f, n);
    DecodeSize(Tokens(sc));
    assert Repeat(1, f[n]) == [f[n]];
    assert f[..n + 1] == f[..n] + [f[n]];
  }

  /** Just after a NUL any character is dropped; it cannot be the first of a line. */
  lemma FromNul(f: seq<Byte>, n: nat, sc: Scan)
    requires 0 < n < |f| && sc.lstch == f[n - 1] == 0 && sc.t == Token(1, 0)
    ensures var sc' := Step(sc, f, n); sc'.t == sc.t && sc'.printed == sc.printed && sc'.lstch == f[n]
  {
  }

  /** One character behind: made up for if it comes again in the same line, else lost. */
  lemma FromPending(f: seq<Byte>, n: nat, sc: Scan)
    requires 1 < n < |f| && sc.lstch == f[n - 1] != 0 && sc.t == Token(1, 0) && Decode(Tokens(sc)) == f[..n - 1]
    ensures var sc' := Step(sc, f, n);
      if f[n - 1] == f[n] && f[n - 1] != NEWLINE then sc'.t.ch == f[n] && Decode(Tokens(sc')) == f[..n + 1]
      else Size(Tokens(sc')) + 1 + Pending(sc') <= n + 1
  {
    StepDecodes(sc, f, n);
    StepSize(sc, f, n);
    DecodeSize(Tokens(sc));
    assert Repeat(2, f[n]) == [f[n], f[n]];
    assert f[n - 1] == f[n] ==> f[..n + 1] == f[..n - 1] + [f[n], f[n]];
  }

  lemma NulOkStep(f: seq<Byte>, n: nat, sc: Scan)
    requires 0 < n < |f| && NulOk(f, n, sc) && sc.t.count < WRAP - 1 && Step(sc, f, n).t.count >= 1
    ensures NulOk(f, n + 1, Step(sc, f, n))
  {
    HarmlessStep(f, n);
    StepPrints(sc, f, n);
    if !Harmless(f, n) {
      StillBehind(f, n, sc);
    } else if f[n - 1] == 0 {
      FromNul(f, n, sc);
      DecodeSize(Tokens(sc));
    } else if n > 1 && f[n - 2] == 0 {
      FromPending(f, n, sc);
    } else {
      FromExact(f, n, sc);
    }
  }

  lemma FirstDecoded(f: seq<Byte>)
    requires f != []
    ensures Decode(Tokens(Scan([], Token(1, f[0]), f[0]))) == f[..1]
  {
    TokensSplit(Scan([], Token(1, f[0]), f[0]));
    DecodeAppend(AsRuns([]), Run(1, f[0]));
    assert Decode(AsRuns([])) == [] && Repeat(1, f[0]) == [f[0]];
  }

  lemma {:induction false} ScanNulOk(f: seq<Byte>, n: nat)
    requires 0 < n <= |f| && |f| < WRAP
    ensures NulOk(f, n, ScanFile(Token(0, 0), f, n))
  {
    Counts(Token(0, 0), f, n);
    if n == 1 {
      FirstChar(f);
      FirstDecoded(f);
    } else {
      Counts(Token(0, 0), f, n - 1);
      ScanNulOk(f, n - 1);
      NulOkStep(f, n - 1, ScanFile(Token(0, 0), f, n - 1));
    }
  }

  /** The NUL at position `i` does no harm: it begins a line, and it is the last byte or two equal
      bytes, neither NUL nor newline, follow it. */
  predicate KeptNul(f: seq<Byte>, i: nat)
    requires i < |f|
  {
    && LineStart(f, i)
    && (i + 1 == |f| || (i + 2 < |f| && f[i + 1] == f[i + 2] && f[i + 1] != 0 && f[i + 1] != NEWLINE))
  }

  ghost predicate AllNulsKept(f: seq<Byte>)
  {
    forall i: nat | i < |f| && f[i] == 0 :: KeptNul(f, i)
  }

  /** The file ends one character after a NUL; that character is lost. */
  predicate LostAtEnd(f: seq<Byte>)
  {
    |f| > 1 && f[|f| - 2] == 0 && f[|f| - 1] != 0
  }

  lemma LostNul(f: seq<Byte>)
    ensures LostAtEnd(f) ==> !AllNulsKept(f)
  {
    if LostAtEnd(f) {
      assert !KeptNul(f, |f| - 2);
    }
  }

  lemma KeptHarmless(f: seq<Byte>)
    ensures AllNulsKept(f) <==> (Harmless(f, |f|) && !LostAtEnd(f))
  {
    if AllNulsKept(f) {
      forall i: nat | i < |f| && f[i] == 0
        ensures HarmlessNul(f, |f|, i)
      {
        assert KeptNul(f, i);
      }
      LostNul(f);
    } else {
      var i: nat :| i < |f| && f[i] == 0 && !KeptNul(f, i);
      assert Harmless(f, |f|) ==> HarmlessNul(f, |f|, i);
      assert i + 2 == |f| && f[i + 1] == 0 ==> !HarmlessNul(f, |f|, i + 1);
    }
  }

  /** What the scanner's last state says of the whole file. */
  lemma NulEnd(f: seq<Byte>, sc: Scan)
    requires f != [] && NulOk(f, |f|, sc)
    ensures Decode(Tokens(sc)) == f <==> (Harmless(f, |f|) && !LostAtEnd(f))
  {
    DecodeSize(Tokens(sc));
    assert f[..|f|] == f;
  }

  /** Any non-empty file of less than 2^32 bytes, whatever its bytes: decoding what `wzip` prints
      gives the file back exactly when every NUL begins a line and is either the last byte or
      followed by two equal bytes, neither NUL nor newline. */
  lemma AnyFileRoundTrip(f: seq<Byte>)
    requires f != [] && |f| < WRAP
    ensures Prints(Opened([f]), Zipped([f])) && (Unzip(Print(Zipped([f]))) == f <==> AllNulsKept(f))
  {
    ScanNulOk(f, |f|);
    NulEnd(f, ScanFile(Token(0, 0), f, |f|));
    KeptHarmless(f);
    ZippedOne(f);
    UnzipPrint(Zipped([f]));
    PrintsExactly([f], Zipped([f]));
  }
}
