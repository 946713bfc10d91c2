/** What `wzip` prints is the run-length encoding of its input, and exactly when. */
module WzipRle {
  import opened Basics
  import opened Wzip
  import opened WzipProgram

  // ---- Run-length encoding, knowing nothing of lines, tokens or overflow ----

  datatype Run = Run(count: nat, ch: Byte)

  function Repeat(n: nat, ch: Byte): (r: seq<Byte>)
    ensures |r| == n && forall i | 0 <= i < n :: r[i] == ch
  {
    seq(n, i => ch)
  }

  /** The characters a sequence of runs stands for. */
  function Decode(rs: seq<Run>): seq<Byte>
  {
    if rs == [] then [] else Decode(rs[..|rs| - 1]) + Repeat(rs[|rs| - 1].count, rs[|rs| - 1].ch)
  }

  /** One more character lengthens the last run or begins a new one. */
  function Extend(rs: seq<Run>, c: Byte): seq<Run>
  {
    if rs != [] && rs[|rs| - 1].ch == c then rs[..|rs| - 1] + [Run(rs[|rs| - 1].count + 1, c)]
    else rs + [Run(1, c)]
  }

  /** The runs of `s`. */
  function Encode(s: seq<Byte>): seq<Run>
  {
    if s == [] then [] else Extend(Encode(s[..|s| - 1]), s[|s| - 1])
  }

  /** Every run is non-empty and adjacent runs are of different characters. */
  ghost predicate Canonical(rs: seq<Run>)
  {
    && (forall i | 0 <= i < |rs| :: rs[i].count >= 1)
    && (forall i | 0 < i < |rs| :: rs[i - 1].ch != rs[i].ch)
  }

  lemma DecodeAppend(rs: seq<Run>, r: Run)
    ensures Decode(rs + [r]) == Decode(rs) + Repeat(r.count, r.ch)
  {
    assert (rs + [r])[..|rs|] == rs;
  }

  lemma EncodeAppend(s: seq<Byte>, c: Byte)
    ensures Encode(s + [c]) == Extend(Encode(s), c)
  {
    assert (s + [c])[..|s|] == s;
  }

  /** How many characters a sequence of runs stands for. */
  function Size(rs: seq<Run>): nat
  {
    if rs == [] then 0 else Size(rs[..|rs| - 1]) + rs[|rs| - 1].count
  }

  lemma SizeAppend(rs: seq<Run>, r: Run)
    ensures Size(rs + [r]) == Size(rs) + r.count
  {
    assert (rs + [r])[..|rs|] == rs;
  }

  lemma {:induction false} DecodeSize(rs: seq<Run>)
    ensures |Decode(rs)| == Size(rs)
  {
    if rs != [] {
      DecodeSize(rs[..|rs| - 1]);
    }
  }

  lemma LongerRun(rs: seq<Run>, n: nat, c: Byte)
    ensures Decode(rs + [Run(n + 1, c)]) == Decode(rs + [Run(n, c)]) + [c]
  {
    DecodeAppend(rs, Run(n + 1, c));
    DecodeAppend(rs, Run(n, c));
    assert Repeat(n + 1, c) == Repeat(n, c) + [c];
  }

  lemma ExtendShape(rs: seq<Run>, c: Byte)
    requires Canonical(rs)
    ensures var rs' := Extend(rs, c); Canonical(rs') && 0 < |rs'| <= |rs| + 1 && rs'[|rs'| - 1].ch == c
  {
  }

  lemma ExtendDecodes(rs: seq<Run>, c: Byte)
    ensures Decode(Extend(rs, c)) == Decode(rs) + [c]
  {
    if rs != [] && rs[|rs| - 1].ch == c {
      LongerRun(rs[..|rs| - 1], rs[|rs| - 1].count, c);
      assert rs == rs[..|rs| - 1] + [rs[|rs| - 1]];
    } else {
      DecodeAppend(rs, Run(1, c));
      assert Repeat(1, c) == [c];
    }
  }

  lemma {:induction false} EncodeShape(s: seq<Byte>)
    ensures Canonical(Encode(s)) && |Encode(s)| <= |s|
    ensures s != [] ==> Encode(s) != [] && Encode(s)[|Encode(s)| - 1].ch == s[|s| - 1]
  {
    if s != [] {
      EncodeShape(s[..|s| - 1]);
      ExtendShape(Encode(s[..|s| - 1]), s[|s| - 1]);
    }
  }

  lemma {:induction false} EncodeDecodes(s: seq<Byte>)
    ensures Decode(Encode(s)) == s
  {
    if s != [] {
      EncodeDecodes(s[..|s| - 1]);
      ExtendDecodes(Encode(s[..|s| - 1]), s[|s| - 1]);
      assert s == s[..|s| - 1] + [s[|s| - 1]];
    }
  }

  lemma {:induction false} EncodeCanonical(s: seq<Byte>)
    ensures Decode(Encode(s)) == s && Canonical(Encode(s)) && |Encode(s)| <= |s|
    ensures s != [] ==> Encode(s) != [] && Encode(s)[|Encode(s)| - 1].ch == s[|s| - 1]
  {
    EncodeShape(s);
    EncodeDecodes(s);
  }

  /** The canonical encoding is the only one: what decodes to `s` and is canonical is `Encode(s)`. */
  lemma {:induction false} CanonicalUnique(rs: seq<Run>)
    requires Canonical(rs)
    ensures Encode(Decode(rs)) == rs
  {
    if rs != [] {
      var init, r := rs[..|rs| - 1], rs[|rs| - 1];
      assert rs == init + [r];
      CanonicalUnique(init);
      AddRun(init, r.count, r.ch);
    }
  }

  lemma {:induction false} AddRun(rs: seq<Run>, n: nat, c: Byte)
    requires n > 0 && Encode(Decode(rs)) == rs && (rs != [] ==> rs[|rs| - 1].ch != c)
    ensures Encode(Decode(rs + [Run(n, c)])) == rs + [Run(n, c)]
  {
    if n == 1 {
      DecodeAppend(rs, Run(1, c));
      assert Repeat(1, c) == [c];
      EncodeAppend(Decode(rs), c);
    } else {
      AddRun(rs, n - 1, c);
      LongerRun(rs, n - 1, c);
      EncodeAppend(Decode(rs + [Run(n - 1, c)]), c);
    }
  }

  // ---- The output format, and the decoder it promises ----

  function AsRun(t: Token): Run
  {
    Run(t.count, t.ch)
  }

  function AsRuns(ts: seq<Token>): seq<Run>
  {
    seq(|ts|, i requires 0 <= i < |ts| => AsRun(ts[i]))
  }

  /** Reads entries of a four-byte count and a character; a truncated last entry is ignored. */
  function Parse(bs: seq<Byte>): seq<Token>
  {
    if |bs| < 5 then []
    else
      var count := bs[0] as int + 256 * (bs[1] as int) + 65536 * (bs[2] as int) + 16777216 * (bs[3] as int);
      [Token(count, bs[4])] + Parse(bs[5..])
  }

  function Unzip(bs: seq<Byte>): seq<Byte>
  {
    Decode(AsRuns(Parse(bs)))
  }

  lemma BytesBack(t: Token)
    ensures Parse(Bytes(t)) == [t] && |Bytes(t)| == 5
  {
    var c := t.count;
    assert c / 256 / 256 == c / 65536 && c / 65536 / 256 == c / 16777216;
    assert c == c % 256 + 256 * (c / 256 % 256) + 65536 * (c / 65536 % 256) + 16777216 * (c / 16777216);
  }

  lemma PrintFirst(t: Token, ts: seq<Token>)
    ensures Print([t] + ts) == Bytes(t) + Print(ts)
  {
    PrintAppend([t], ts);
    PrintLast([], t);
    assert [] + [t] == [t];
  }

  lemma {:induction false} PrintBack(ts: seq<Token>)
    ensures Parse(Print(ts)) == ts && |Print(ts)| == 5 * |ts|
  {
    if ts != [] {
      var t, rest := ts[0], ts[1..];
      assert ts == [t] + rest;
      PrintFirst(t, rest);
      BytesBack(t);
      PrintBack(rest);
      ParseFirst(t, Print(rest));
    }
  }

  lemma ParseFirst(t: Token, bs: seq<Byte>)
    ensures Parse(Bytes(t) + bs) == [t] + Parse(bs)
  {
    BytesBack(t);
    assert Parse(Bytes(t))[0] == t;
    assert (Bytes(t) + bs)[5..] == bs;
  }

  lemma UnzipPrint(ts: seq<Token>)
    ensures Unzip(Print(ts)) == Decode(AsRuns(ts))
  {
    PrintBack(ts);
  }

  /** All that `readlines` has printed and still counts after `n` characters of file `f`. */
  function Tokens(sc: Scan): seq<Run>
  {
    AsRuns(sc.printed + [sc.t])
  }

  lemma TokensPrint(sc: Scan, t: Token, l: Byte)
    ensures Tokens(Scan(sc.printed + [sc.t], t, l)) == Tokens(sc) + [AsRun(t)]
    ensures Tokens(sc.(t := t)) == Tokens(sc)[..|sc.printed|] + [AsRun(t)]
    ensures |Tokens(sc)| == |sc.printed| + 1 && Tokens(sc)[|sc.printed|] == AsRun(sc.t)
  {
  }

  // ---- One file without NUL, of any length ----

  ghost predicate NulFree(f: seq<Byte>)
  {
    forall i | 0 <= i < |f| :: f[i] != 0
  }

  ghost predicate Short(rs: seq<Run>)
  {
    forall i | 0 <= i < |rs| :: rs[i].count < WRAP
  }

  /** Every run is short enough for its count to be printed. */
  ghost predicate ShortRuns(f: seq<Byte>)
  {
    Short(Encode(f))
  }

  /** The count after one more of the same character: a count that has wrapped to zero stays there
      at the start of a line. */
  function OneMore(count: U32, atStart: bool): U32
  {
    if atStart && count == 0 then 0 else (count + 1) % WRAP
  }

  /** Away from NULs the scanner's four tests come down to one: same character or not. */
  lemma StepShape(sc: Scan, f: seq<Byte>, i: nat)
    requires i < |f| && f[i] != 0
    requires if i == 0 then sc == Scan([], Token(0, 0), 0) else sc.lstch == sc.t.ch == f[i - 1] != 0
    ensures var sc' := Step(sc, f, i);
      && sc'.lstch == sc'.t.ch == f[i]
      && (i == 0 ==> sc'.printed == [] && sc'.t.count == 1)
      && (i > 0 && f[i] != f[i - 1] ==> sc'.printed == sc.printed + [sc.t] && sc'.t.count == 1)
      && (i > 0 && f[i] == f[i - 1] ==> sc'.printed == sc.printed)
      && (i > 0 && f[i] == f[i - 1] ==> sc'.t.count == OneMore(sc.t.count, LineStart(f, i)))
  {
  }

  /** After `n` characters the scanner is at its `n`-th character, and either every run so far is
      short and the tokens are the runs, or characters have been lost. */
  ghost predicate InStep(f: seq<Byte>, n: nat)
    requires 0 < n <= |f|
  {
    var sc := ScanFile(Token(0, 0), f, n);
    && sc.lstch == sc.t.ch == f[n - 1]
    && (if ShortRuns(f[..n]) then Tokens(sc) == Encode(f[..n]) else Size(Tokens(sc)) < n)
  }

  lemma ShortAppend(rs: seq<Run>, r: Run)
    ensures Short(rs + [r]) <==> Short(rs) && r.count < WRAP
  {
    assert forall i | 0 <= i < |rs| :: (rs + [r])[i] == rs[i];
    assert (rs + [r])[|rs|] == r;
  }

  lemma InStepNew(f: seq<Byte>, n: nat)
    requires 0 < n < |f| && NulFree(f) && InStep(f, n) && f[n] != f[n - 1]
    ensures InStep(f, n + 1)
  {
    var sc, sc' := ScanFile(Token(0, 0), f, n), ScanFile(Token(0, 0), f, n + 1);
    StepShape(sc, f, n);
    assert f[..n + 1] == f[..n] + [f[n]];
    NewStep(f[..n], f[n], sc, sc');
  }

  lemma NewStep(s: seq<Byte>, c: Byte, sc: Scan, sc': Scan)
    requires s != [] && s[|s| - 1] != c && sc'.printed == sc.printed + [sc.t] && sc'.t == Token(1, c)
    requires if ShortRuns(s) then Tokens(sc) == Encode(s) else Size(Tokens(sc)) < |s|
    ensures if ShortRuns(s + [c]) then Tokens(sc') == Encode(s + [c]) else Size(Tokens(sc')) < |s| + 1
  {
    TokensPrint(sc, sc'.t, sc'.lstch);
    EncodeShape(s);
    EncodeAppend(s, c);
    ShortAppend(Encode(s), Run(1, c));
    SizeAppend(Tokens(sc), Run(1, c));
  }

  lemma InStepSame(f: seq<Byte>, n: nat)
    requires 0 < n < |f| && NulFree(f) && InStep(f, n) && f[n] == f[n - 1]
    ensures InStep(f, n + 1)
  {
    var sc, sc' := ScanFile(Token(0, 0), f, n), ScanFile(Token(0, 0), f, n + 1);
    StepShape(sc, f, n);
    assert f[..n + 1] == f[..n] + [f[n]];
    SameStep(f[..n], f[n], sc, sc', LineStart(f, n));
  }

  lemma SameStep(s: seq<Byte>, c: Byte, sc: Scan, sc': Scan, atStart: bool)
    requires s != [] && s[|s| - 1] == sc.t.ch == sc'.t.ch == c && sc'.printed == sc.printed
    requires sc'.t.count == OneMore(sc.t.count, atStart)
    requires if ShortRuns(s) then Tokens(sc) == Encode(s) else Size(Tokens(sc)) < |s|
    ensures if ShortRuns(s + [c]) then Tokens(sc') == Encode(s + [c]) else Size(Tokens(sc')) < |s| + 1
  {
    var init, r := LastRun(s, c);
    LastToken(sc, sc');
    SameRuns(init, r, AsRuns(sc.printed), AsRun(sc.t), AsRun(sc'.t), |s|, atStart);
  }

  /** One more of the same: in step as long as the count is, and once lost always lost. */
  lemma {:induction false} SameRuns(init: seq<Run>, r: Run, head: seq<Run>, x: Run, x': Run, n: nat, atStart: bool)
    requires x.count < WRAP && x'.ch == x.ch == r.ch && x'.count == OneMore(x.count, atStart) && r.count >= 1
    requires if Short(init + [r]) then head + [x] == init + [r] else Size(head + [x]) < n
    requires Size(init + [r]) == n
    ensures if Short(init + [Run(r.count + 1, r.ch)]) then head + [x'] == init + [Run(r.count + 1, r.ch)]
      else Size(head + [x']) < n + 1
  {
    ShortAppend(init, r);
    ShortAppend(init, Run(r.count + 1, r.ch));
    SizeAppend(head, x);
    SizeAppend(head, x');
    if Short(init + [r]) {
      LastEqual(head, x, init, r);
    }
  }

  lemma LastRun(s: seq<Byte>, c: Byte) returns (init: seq<Run>, r: Run)
    requires s != [] && s[|s| - 1] == c
    ensures Encode(s) == init + [r] && r.ch == c && r.count >= 1 && Size(init + [r]) == |s|
    ensures Encode(s + [c]) == init + [Run(r.count + 1, c)]
  {
    EncodeShape(s);
    EncodeDecodes(s);
    DecodeSize(Encode(s));
    EncodeAppend(s, c);
    init, r := Encode(s)[..|Encode(s)| - 1], Encode(s)[|Encode(s)| - 1];
    assert Encode(s) == init + [r];
  }

  lemma LastToken(sc: Scan, sc': Scan)
    requires sc'.printed == sc.printed
    ensures Tokens(sc) == AsRuns(sc.printed) + [AsRun(sc.t)] && Tokens(sc') == AsRuns(sc.printed) + [AsRun(sc'.t)]
  {
  }

  lemma LastEqual(a: seq<Run>, x: Run, b: seq<Run>, y: Run)
    requires a + [x] == b + [y]
    ensures a == b && x == y
  {
    assert a == (a + [x])[..|a|] && b == (b + [y])[..|b|];
    assert x == (a + [x])[|a|] && y == (b + [y])[|b|];
  }

  lemma InStepFirst(f: seq<Byte>)
    requires f != [] && NulFree(f)
    ensures InStep(f, 1)
  {
    var sc := ScanFile(Token(0, 0), f, 1);
    assert ScanFile(Token(0, 0), f, 0) == Scan([], Token(0, 0), 0);
    StepShape(Scan([], Token(0, 0), 0), f, 0);
    EncodeAppend([], f[0]);
    assert f[..1] == [] + [f[0]];
    assert Tokens(sc) == [Run(1, f[0])];
  }

  lemma {:induction false} ScanInStep(f: seq<Byte>, n: nat)
    requires 0 < n <= |f| && NulFree(f)
    ensures InStep(f, n)
  {
    if n == 1 {
      InStepFirst(f);
    } else {
      ScanInStep(f, n - 1);
      if f[n - 1] == f[n - 2] { InStepSame(f, n - 1); } else { InStepNew(f, n - 1); }
    }
  }

  lemma ZippedOne(f: seq<Byte>)
    requires ScanFile(Token(0, 0), f, |f|).t.count != 0
    ensures var sc := ScanFile(Token(0, 0), f, |f|);
      EachCounted([f]) && Zipped([f]) == sc.printed + [sc.t] && AsRuns(Zipped([f])) == Tokens(sc)
  {
    OneFile(f);
    var sc := ScanFile(Token(0, 0), f, |f|);
    assert [] + sc.printed == sc.printed;
  }

  lemma OneFile(f: seq<Byte>)
    ensures ScanFiles([f]) == var sc := ReadFile(Token(0, 0), f); sc.(printed := [] + sc.printed)
    ensures EachCounted([f]) <==> ReadFile(Token(0, 0), f).t.count != 0
  {
    assert [f][..0] == [] && ScanFiles([]) == Scan([], Token(0, 0), 0);
  }

  // ---- A run that is too long ----

  /** A token that counts zero stands for at least 2^32 characters. */
  function Standing(t: Token): nat
  {
    if t.count == 0 then WRAP else t.count
  }

  lemma {:induction false} ScanLow(f: seq<Byte>, n: nat)
    requires 0 < n <= |f| && NulFree(f)
    ensures var sc := ScanFile(Token(0, 0), f, n);
      Size(AsRuns(sc.printed)) + Standing(sc.t) <= n && sc.lstch == sc.t.ch == f[n - 1]
  {
    var a := ScanFile(Token(0, 0), f, n - 1);
    if n == 1 {
      assert a == Scan([], Token(0, 0), 0);
      StepShape(a, f, 0);
    } else {
      ScanLow(f, n - 1);
      StepShape(a, f, n - 1);
      LowStep(a, ScanFile(Token(0, 0), f, n), n - 1);
    }
  }

  lemma LowStep(a: Scan, a': Scan, n: nat)
    requires Size(AsRuns(a.printed)) + Standing(a.t) <= n
    requires (a'.printed == a.printed + [a.t] && a'.t.count == 1)
          || (a'.printed == a.printed && (a'.t.count == (a.t.count + 1) % WRAP || a.t.count == a'.t.count == 0))
    ensures Size(AsRuns(a'.printed)) + Standing(a'.t) <= n + 1
  {
    assert AsRuns(a.printed + [a.t]) == AsRuns(a.printed) + [AsRun(a.t)];
    SizeAppend(AsRuns(a.printed), AsRun(a.t));
  }

  /** Reading the file again, from a zero count of `c`: it comes into step with the first reading
      or prints nothing. */
  ghost predicate OutOfStep(f: seq<Byte>, n: nat, c: Byte, b: Scan)
    requires n <= |f|
  {
    && b.printed == [] && b.t.ch == c && b.lstch == (if n == 0 then 0 else f[n - 1])
    && (n <= 1 ==> b.t.count == 0)
    && (n > 1 && f[n - 1] != c ==> f[n - 1] == NEWLINE)
  }

  lemma OutOfStepStep(f: seq<Byte>, n: nat, c: Byte, a: Scan, b: Scan)
    requires n < |f| && NulFree(f) && c != 0 && OutOfStep(f, n, c, b)
    requires if n == 0 then a == Scan([], Token(0, 0), 0) else a.lstch == a.t.ch == f[n - 1]
    requires n == 1 ==> a.t.count == 1
    ensures OutOfStep(f, n + 1, c, Step(b, f, n)) || Step(a, f, n).t == Step(b, f, n).t
  {
  }

  /** The first reading and the second after as many characters. */
  ghost predicate InOrOut(f: seq<Byte>, n: nat, c: Byte, a: Scan, b: Scan)
    requires n <= |f|
  {
    a.lstch == b.lstch && (a.t == b.t || OutOfStep(f, n, c, b))
  }

  lemma {:induction false} InOrOutOfStep(f: seq<Byte>, n: nat, c: Byte)
    requires n <= |f| && NulFree(f) && c != 0
    ensures InOrOut(f, n, c, ScanFile(Token(0, 0), f, n), ScanFile(Token(0, c), f, n))
  {
    if n > 0 {
      InOrOutOfStep(f, n - 1, c);
      if n > 1 {
        ScanLow(f, n - 1);
      }
      if n == 2 {
        FirstChar(f);
      }
      InOrOutStep(f, n - 1, c, ScanFile(Token(0, 0), f, n - 1), ScanFile(Token(0, c), f, n - 1));
    }
  }

  lemma InOrOutStep(f: seq<Byte>, n: nat, c: Byte, a: Scan, b: Scan)
    requires n < |f| && NulFree(f) && c != 0 && InOrOut(f, n, c, a, b)
    requires if n == 0 then a == Scan([], Token(0, 0), 0) else a.lstch == a.t.ch == f[n - 1]
    requires n == 1 ==> a.t.count == 1
    ensures InOrOut(f, n + 1, c, Step(a, f, n), Step(b, f, n))
  {
    if a.t != b.t {
      OutOfStepStep(f, n, c, a, b);
    }
  }

  lemma FirstChar(f: seq<Byte>)
    requires f != []
    ensures ScanFile(Token(0, 0), f, 1) == Scan([], Token(1, f[0]), f[0])
  {
    assert ScanFile(Token(0, 0), f, 0) == Scan([], Token(0, 0), 0);
  }

  /** With a run that is too long the program does not end, or it has lost characters. */
  lemma TooLong(f: seq<Byte>)
    requires f != [] && NulFree(f) && !ShortRuns(f) && EachCounted([f])
    ensures Size(AsRuns(Zipped([f]))) < |f|
  {
    var n := |f|;
    var a := ScanFile(Token(0, 0), f, n);
    OneFile(f);
    ScanInStep(f, n);
    assert f[..n] == f;
    if a.t.count != 0 {
      ZippedOne(f);
    } else {
      ScanLow(f, n);
      InOrOutOfStep(f, n, a.t.ch);
      var b := ScanFile(a.t, f, n);
      assert AsRuns(Zipped([f])) == AsRuns(a.printed) + [AsRun(b.t)];
      SizeAppend(AsRuns(a.printed), AsRun(b.t));
    }
  }

  /** A non-empty NUL-free file of any length. The program ends, having printed something that
      decodes to the file, exactly when no run is too long for its count; it has then printed the
      canonical run-length encoding: five bytes for each run, at most five for each character. */
  lemma {:induction false} ZipRoundTrip(f: seq<Byte>)
    requires f != [] && NulFree(f)
    ensures (exists ts :: Prints(Opened([f]), ts) && Unzip(Print(ts)) == f) <==> ShortRuns(f)
    ensures ShortRuns(f) ==> Prints(Opened([f]), Zipped([f])) && AsRuns(Zipped([f])) == Encode(f)
    ensures ShortRuns(f) ==> Canonical(Encode(f)) && |Print(Zipped([f]))| == 5 * |Encode(f)| <= 5 * |f|
  {
    forall ts
      ensures Prints(Opened([f]), ts) <==> EachCounted([f]) && ts == Zipped([f])
    {
      PrintsExactly([f], ts);
    }
    UnzipPrint(Zipped([f]));
    DecodeSize(AsRuns(Zipped([f])));
    if ShortRuns(f) {
      ShortZipped(f);
    } else if EachCounted([f]) {
      TooLong(f);
    }
  }

  ghost predicate Newlines(f: seq<Byte>)
  {
    |f| == WRAP && forall i | 0 <= i < |f| :: f[i] == NEWLINE
  }

  lemma {:induction false} NewlinesCount(f: seq<Byte>, n: nat)
    requires Newlines(f) && 0 < n <= |f|
    ensures var sc := ScanFile(Token(0, 0), f, n); sc.t == Token(n % WRAP, NEWLINE) && sc.lstch == NEWLINE
  {
    var before := ScanFile(Token(0, 0), f, n - 1);
    if n == 1 {
      FirstChar(f);
    } else {
      NewlinesCount(f, n - 1);
      StepShape(before, f, n - 1);
    }
  }

  lemma {:induction false} NewlinesAgain(f: seq<Byte>, n: nat)
    requires Newlines(f) && n <= |f|
    ensures var sc := ScanFile(Token(0, NEWLINE), f, n); sc.t == Token(0, NEWLINE) && (n > 0 ==> sc.lstch == NEWLINE)
  {
    if n > 0 {
      NewlinesAgain(f, n - 1);
    }
  }

  /** A file of exactly 2^32 newlines is read for ever: its count wraps to zero, and at the beginning
      of a line a zero count stays zero. */
  lemma NewlinesForEver(f: seq<Byte>)
    requires Newlines(f)
    ensures !Ends(Opened([f]))
  {
    NewlinesCount(f, |f|);
    NewlinesAgain(f, |f|);
    OneFile(f);
    ReadableOpened([f]);
    EndsExactly(Opened([f]));
  }

  lemma ShortZipped(f: seq<Byte>)
    requires f != [] && NulFree(f) && ShortRuns(f)
    ensures EachCounted([f]) && AsRuns(Zipped([f])) == Encode(f) && Decode(Encode(f)) == f
    ensures Canonical(Encode(f)) && |Print(Zipped([f]))| == 5 * |Encode(f)| <= 5 * |f|
  {
    ScanInStep(f, |f|);
    assert f[..|f|] == f;
    EncodeCanonical(f);
    var sc := ScanFile(Token(0, 0), f, |f|);
    assert Tokens(sc)[|sc.printed|] == AsRun(sc.t);
    ZippedOne(f);
    PrintBack(Zipped([f]));
    assert |AsRuns(Zipped([f]))| == |Encode(f)|;
  }
}
