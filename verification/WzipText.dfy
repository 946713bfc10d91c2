/** What `wzip` prints for any number of files, whatever their bytes: as runs, told from the characters
    alone; and as the text these stand for, told from the files alone. */
module WzipText {
  import opened Wzip
  import opened WzipProgram
  import opened WzipRle

  // ---- The runs, character by character ----

  function Last(rs: seq<Run>): Run
    requires rs != []
  {
    rs[|rs| - 1]
  }

  function Longer(rs: seq<Run>): seq<Run>
    requires rs != []
  {
    rs[..|rs| - 1] + [Run(Last(rs).count + 1, Last(rs).ch)]
  }

  /** The runs after one more character `x`, which comes after `l` in its file (NUL if it is the first) and
      begins a line or not. The first of a file only lengthens the run there is, whatever it is. */
  function NextRuns(rs: seq<Run>, l: Byte, x: Byte, start: bool): seq<Run>
  {
    if rs == [] || (start && l != 0 && l != x) then rs + [Run(1, x)]
    else if start then (if Last(rs).ch == 0 then rs else Longer(rs))
    else if x == 0 || l == 0 then rs
    else if x != Last(rs).ch then rs + [Run(if x == l then 2 else 1, x)]
    else if x == l then Longer(rs)
    else rs
  }

  /** The character before position `n` of its file. */
  function Before(f: seq<Byte>, n: nat): Byte
    requires n <= |f|
  {
    if n == 0 then 0 else f[n - 1]
  }

  function RunsAfter(rs: seq<Run>, f: seq<Byte>, n: nat): seq<Run>
    requires n <= |f|
  {
    if n == 0 then rs
    else NextRuns(RunsAfter(rs, f, n - 1), Before(f, n - 1), f[n - 1], LineStart(f, n - 1))
  }

  function FilesRuns(files: seq<seq<Byte>>): seq<Run>
  {
    if files == [] then []
    else RunsAfter(FilesRuns(files[..|files| - 1]), files[|files| - 1], |files[|files| - 1]|)
  }

  // ---- They are what the scanner prints ----

  /** The scanner, with `head` printed before this file, stands at the runs `rs`. */
  ghost predicate Stands(rs: seq<Run>, head: seq<Run>, sc: Scan)
  {
    if rs == [] then head == [] && sc.printed == [] && sc.t == Token(0, 0)
    else head + Tokens(sc) == rs && sc.t.count >= 1
  }

  lemma StandsSplit(rs: seq<Run>, head: seq<Run>, sc: Scan)
    requires Stands(rs, head, sc) && rs != []
    ensures rs == (head + AsRuns(sc.printed)) + [AsRun(sc.t)] && Last(rs) == AsRun(sc.t)
    ensures rs[..|rs| - 1] == head + AsRuns(sc.printed)
  {
    HeadTokens(head, sc);
  }

  lemma HeadTokens(head: seq<Run>, sc: Scan)
    ensures head + Tokens(sc) == (head + AsRuns(sc.printed)) + [AsRun(sc.t)]
  {
    assert Tokens(sc) == AsRuns(sc.printed) + [AsRun(sc.t)];
  }

  /** The scanner prints its token and begins another. */
  lemma StandsNew(rs: seq<Run>, head: seq<Run>, sc: Scan, sc': Scan)
    requires Stands(rs, head, sc) && rs != [] && sc'.printed == sc.printed + [sc.t] && sc'.t.count >= 1
    ensures Stands(rs + [AsRun(sc'.t)], head, sc')
  {
    HeadTokens(head, sc');
    StandsSplit(rs, head, sc);
    assert AsRuns(sc'.printed) == AsRuns(sc.printed) + [AsRun(sc.t)];
  }

  lemma StandsLonger(rs: seq<Run>, head: seq<Run>, sc: Scan, sc': Scan)
    requires Stands(rs, head, sc) && rs != [] && sc'.printed == sc.printed && Short(Longer(rs))
    requires sc'.t == UpdateTokenCount(sc.t, 's')
    ensures Stands(Longer(rs), head, sc')
  {
    HeadTokens(head, sc');
    StandsSplit(rs, head, sc);
    assert Longer(rs)[|rs| - 1].count < WRAP;
  }

  /** The seven ways a step of the scanner can go. */
  lemma StepWays(sc: Scan, f: seq<Byte>, i: nat)
    requires i < |f| && sc.lstch == Before(f, i) && (sc.t.count >= 1 || (i == 0 && sc.t.ch == 0))
    ensures var sc', l, x, start := Step(sc, f, i), sc.lstch, f[i], LineStart(f, i);
      var same, longer := sc.(lstch := x), sc.(t := UpdateTokenCount(sc.t, 's'), lstch := x);
      sc' ==
        if sc.t.count == 0 then Scan(sc.printed, Token(1, x), x)
        else if start && l != 0 && l != x then Scan(sc.printed + [sc.t], Token(1, x), x)
        else if start then (if sc.t.ch == 0 then same else longer)
        else if x == 0 || l == 0 then same
        else if x != sc.t.ch then Scan(sc.printed + [sc.t], Token(if x == l then 2 else 1, x), x)
        else if x == l then longer
        else same
  {
  }

  lemma StandsStep(rs: seq<Run>, head: seq<Run>, sc: Scan, f: seq<Byte>, i: nat)
    requires i < |f| && Stands(rs, head, sc) && sc.lstch == Before(f, i) && (rs == [] ==> i == 0)
    requires Short(NextRuns(rs, Before(f, i), f[i], LineStart(f, i)))
    ensures Stands(NextRuns(rs, Before(f, i), f[i], LineStart(f, i)), head, Step(sc, f, i))
    ensures Step(sc, f, i).lstch == f[i]
  {
    var sc', rs' := Step(sc, f, i), NextRuns(rs, Before(f, i), f[i], LineStart(f, i));
    StepWays(sc, f, i);
    if rs == [] {
      HeadTokens(head, sc');
    } else {
      StandsSplit(rs, head, sc);
      if sc'.printed != sc.printed {
        StandsNew(rs, head, sc, sc');
      } else if sc'.t != sc.t {
        StandsLonger(rs, head, sc, sc');
      }
    }
  }

  lemma ShortBefore(rs: seq<Run>, l: Byte, x: Byte, start: bool)
    requires Short(NextRuns(rs, l, x, start))
    ensures Short(rs)
  {
    var rs' := NextRuns(rs, l, x, start);
    forall i | 0 <= i < |rs|
      ensures rs[i].count < WRAP
    {
      assert rs[i].count <= rs'[i].count;
    }
  }

  lemma NextStands(rs: seq<Run>, head: seq<Run>, t: Token, f: seq<Byte>, n: nat)
    requires n < |f| && Stands(RunsAfter(rs, f, n), head, ScanFile(t, f, n)) && (n > 0 ==> RunsAfter(rs, f, n) != [])
    requires ScanFile(t, f, n).lstch == Before(f, n) && Short(RunsAfter(rs, f, n + 1))
    ensures Stands(RunsAfter(rs, f, n + 1), head, ScanFile(t, f, n + 1)) && RunsAfter(rs, f, n + 1) != []
    ensures ScanFile(t, f, n + 1).lstch == f[n]
  {
    StandsStep(RunsAfter(rs, f, n), head, ScanFile(t, f, n), f, n);
  }

  lemma {:induction false} ScanStands(rs: seq<Run>, head: seq<Run>, t: Token, f: seq<Byte>, n: nat)
    requires n <= |f| && Stands(rs, head, Scan([], t, 0)) && Short(RunsAfter(rs, f, n))
    ensures Stands(RunsAfter(rs, f, n), head, ScanFile(t, f, n)) && ScanFile(t, f, n).lstch == Before(f, n)
    ensures n > 0 ==> RunsAfter(rs, f, n) != []
  {
    if n > 0 {
      ShortBefore(RunsAfter(rs, f, n - 1), Before(f, n - 1), f[n - 1], LineStart(f, n - 1));
      ScanStands(rs, head, t, f, n - 1);
      NextStands(rs, head, t, f, n - 1);
    }
  }

  lemma {:induction false} ShortStart(rs: seq<Run>, f: seq<Byte>, n: nat)
    requires n <= |f| && Short(RunsAfter(rs, f, n))
    ensures Short(rs)
  {
    if n > 0 {
      ShortBefore(RunsAfter(rs, f, n - 1), Before(f, n - 1), f[n - 1], LineStart(f, n - 1));
      ShortStart(rs, f, n - 1);
    }
  }

  /** What this file has printed, after what was printed before it. */
  lemma StandsAfter(rs: seq<Run>, printed: seq<Token>, sc: Scan)
    requires rs != [] && Stands(rs, AsRuns(printed), sc)
    ensures Stands(rs, [], sc.(printed := printed + sc.printed))
  {
    HeadTokens(AsRuns(printed), sc);
    HeadTokens([], sc.(printed := printed + sc.printed));
    assert AsRuns(printed + sc.printed) == AsRuns(printed) + AsRuns(sc.printed);
  }

  lemma StandsBefore(rs: seq<Run>, before: Scan)
    requires Stands(rs, [], before)
    ensures Stands(rs, AsRuns(before.printed), Scan([], before.t, 0))
  {
    HeadTokens([], before);
    assert Tokens(Scan([], before.t, 0)) == [AsRun(before.t)];
  }

  /** The next file, after what has been read before it. */
  lemma FileStands(rs: seq<Run>, before: Scan, f: seq<Byte>)
    requires Stands(rs, [], before) && Short(RunsAfter(rs, f, |f|)) && (rs != [] || f != [])
    ensures var sc, rs' := ReadFile(before.t, f), RunsAfter(rs, f, |f|);
      rs' != [] && sc.t.count >= 1 && Stands(rs', [], sc.(printed := before.printed + sc.printed))
  {
    StandsBefore(rs, before);
    ScanStands(rs, AsRuns(before.printed), before.t, f, |f|);
    StandsAfter(RunsAfter(rs, f, |f|), before.printed, ScanFile(before.t, f, |f|));
  }

  lemma {:induction false} FilesStand(files: seq<seq<Byte>>)
    requires files == [] || files[0] != []
    requires Short(FilesRuns(files))
    ensures Stands(FilesRuns(files), [], ScanFiles(files)) && EachCounted(files)
    ensures files != [] ==> FilesRuns(files) != []
  {
    if files != [] {
      var init, f := files[..|files| - 1], files[|files| - 1];
      ShortStart(FilesRuns(init), f, |f|);
      FilesStand(init);
      FileStands(FilesRuns(init), ScanFiles(init), f);
    }
  }

  /** Files of any bytes, the first not empty: as long as no run is too long for its count, the program
      ends, having printed exactly those runs. */
  lemma {:induction false} ExactRuns(files: seq<seq<Byte>>)
    requires files != [] && files[0] != [] && Short(FilesRuns(files))
    ensures Prints(Opened(files), Zipped(files)) && AsRuns(Zipped(files)) == FilesRuns(files)
  {
    FilesStand(files);
    PrintsExactly(files, Zipped(files));
    assert [] + Tokens(ScanFiles(files)) == Tokens(ScanFiles(files));
  }

  ghost predicate AtMost(rs: seq<Run>, bound: nat)
  {
    forall i | 0 <= i < |rs| :: rs[i].count <= bound
  }

  lemma {:induction false} RunsBounded(rs: seq<Run>, bound: nat, f: seq<Byte>, n: nat)
    requires n <= |f| && AtMost(rs, bound)
    ensures AtMost(RunsAfter(rs, f, n), bound + n)
  {
    if n > 0 {
      RunsBounded(rs, bound, f, n - 1);
    }
  }

  /** No run is longer than all that has been read. */
  lemma {:induction false} FilesBounded(files: seq<seq<Byte>>)
    ensures AtMost(FilesRuns(files), |Concat(files)|)
    ensures |Concat(files)| < WRAP ==> Short(FilesRuns(files))
  {
    if files != [] {
      var init, f := files[..|files| - 1], files[|files| - 1];
      FilesBounded(init);
      RunsBounded(FilesRuns(init), |Concat(init)|, f, |f|);
    }
  }

  // ---- The text they stand for, when there are no NULs ----

  ghost predicate AllNulFree(files: seq<seq<Byte>>)
  {
    forall i | 0 <= i < |files| :: NulFree(files[i])
  }

  function LeadingNewlines(g: seq<Byte>): (k: nat)
    ensures k <= |g| && (forall i | 0 <= i < k :: g[i] == NEWLINE) && (k < |g| ==> g[k] != NEWLINE)
  {
    if g == [] || g[0] != NEWLINE then 0 else 1 + LeadingNewlines(g[1..])
  }

  /** What is decoded of a file `g` read after text that ends with `c`. If it begins with another character,
      `c` comes in its place; if with newlines, in the place of each of them. Then the second character of
      that line goes missing if it is `c`, and comes with the first one before it if it repeats that. */
  function Carried(c: Byte, g: seq<Byte>): seq<Byte>
  {
    if g == [] || g[0] == c then g
    else if g[0] == NEWLINE then Repeat(LeadingNewlines(g), c) + g[LeadingNewlines(g)..]
    else if |g| == 1 then [c]
    else if g[1] == g[0] then [c] + g
    else if g[1] == c then [c] + g[2..]
    else [c] + g[1..]
  }

  /** What is decoded of all files. */
  function Text(files: seq<seq<Byte>>): seq<Byte>
  {
    if files == [] then []
    else
      var d, g := Text(files[..|files| - 1]), files[|files| - 1];
      if d == [] then g else d + Carried(d[|d| - 1], g)
  }

  /** The runs decode to `d`, which ends with their last character. */
  ghost predicate Reads(rs: seq<Run>, d: seq<Byte>)
  {
    rs != [] && d != [] && Decode(rs) == d && Last(rs).ch == d[|d| - 1] != 0
  }

  lemma LongerReads(rs: seq<Run>, d: seq<Byte>)
    requires Reads(rs, d)
    ensures Reads(Longer(rs), d + [d[|d| - 1]])
  {
    LongerRun(rs[..|rs| - 1], Last(rs).count, Last(rs).ch);
    assert rs == rs[..|rs| - 1] + [Last(rs)];
  }

  lemma NewReads(rs: seq<Run>, d: seq<Byte>, n: nat, x: Byte)
    requires Decode(rs) == d && x != 0 && n > 0
    ensures Reads(rs + [Run(n, x)], d + Repeat(n, x))
  {
    DecodeAppend(rs, Run(n, x));
  }

  /** Once the last run is of the last character, each other character only extends the runs. */
  lemma InStepExtends(rs: seq<Run>, x: Byte, start: bool)
    requires rs != [] && Last(rs).ch != 0 && x != 0
    ensures NextRuns(rs, Last(rs).ch, x, start) == Extend(rs, x)
  {
  }

  lemma InStepReads(rs: seq<Run>, d: seq<Byte>, x: Byte, start: bool)
    requires Reads(rs, d) && x != 0
    ensures Reads(NextRuns(rs, d[|d| - 1], x, start), d + [x])
  {
    InStepExtends(rs, x, start);
    ExtendDecodes(rs, x);
  }

  lemma NextText(rs: seq<Run>, f: seq<Byte>, d: seq<Byte>, n: nat)
    requires 0 < n < |f| && f[n] != 0 && Reads(RunsAfter(rs, f, n), d) && d[|d| - 1] == f[n - 1]
    ensures Reads(RunsAfter(rs, f, n + 1), d + [f[n]])
  {
    InStepReads(RunsAfter(rs, f, n), d, f[n], LineStart(f, n));
  }

  lemma OneMore(d: seq<Byte>, f: seq<Byte>, k: nat, n: nat)
    requires 0 < k < n <= |f| && d != [] && d[|d| - 1] == f[k - 1]
    ensures var before := d + f[k..n - 1];
      before != [] && before[|before| - 1] == f[n - 2] && d + f[k..n] == before + [f[n - 1]]
  {
  }

  lemma {:induction false} TextInStep(rs: seq<Run>, f: seq<Byte>, d: seq<Byte>, k: nat, n: nat, whole: seq<Byte>)
    requires 0 < k <= n <= |f| && NulFree(f) && Reads(RunsAfter(rs, f, k), d) && d[|d| - 1] == f[k - 1]
    requires whole == d + f[k..n]
    ensures Reads(RunsAfter(rs, f, n), whole)
  {
    if n == k {
      assert whole == d;
    } else {
      OneMore(d, f, k, n);
      TextInStep(rs, f, d, k, n - 1, d + f[k..n - 1]);
      NextText(rs, f, d + f[k..n - 1], n - 1);
    }
  }

  /** From there on, the rest of the file is decoded as it is. */
  lemma RestInStep(rs: seq<Run>, f: seq<Byte>, d: seq<Byte>, k: nat, whole: seq<Byte>)
    requires 0 < k <= |f| && NulFree(f) && Reads(RunsAfter(rs, f, k), d) && d[|d| - 1] == f[k - 1]
    requires whole == d + f[k..]
    ensures Reads(RunsAfter(rs, f, |f|), whole)
  {
    assert f[k..|f|] == f[k..];
    TextInStep(rs, f, d, k, |f|, whole);
  }

  lemma WholeFile(d: seq<Byte>, f: seq<Byte>)
    requires f != []
    ensures d + f == (d + [f[0]]) + f[1..]
  {
  }

  /** The first character of a file goes on with the last one before it. */
  lemma FirstCarried(rs: seq<Run>, f: seq<Byte>, d: seq<Byte>)
    requires f != [] && Reads(rs, d)
    ensures RunsAfter(rs, f, 1) == Longer(rs) && Reads(RunsAfter(rs, f, 1), d + [d[|d| - 1]])
  {
    assert RunsAfter(rs, f, 0) == rs;
    LongerReads(rs, d);
  }

  /** So does each newline it begins with. */
  lemma {:induction false} NewlinesCarried(rs: seq<Run>, f: seq<Byte>, d: seq<Byte>, n: nat)
    requires n <= |f| && Reads(rs, d) && forall i | 0 <= i < n :: f[i] == NEWLINE
    ensures Reads(RunsAfter(rs, f, n), d + Repeat(n, d[|d| - 1]))
    ensures (d + Repeat(n, d[|d| - 1]))[|d| + n - 1] == d[|d| - 1]
  {
    var c := d[|d| - 1];
    if n == 0 {
      assert d + Repeat(0, c) == d;
    } else {
      NewlinesCarried(rs, f, d, n - 1);
      LongerReads(RunsAfter(rs, f, n - 1), d + Repeat(n - 1, c));
      assert d + Repeat(n, c) == (d + Repeat(n - 1, c)) + [c];
    }
  }

  /** Another line begins, with another character. */
  lemma LineAfter(rs: seq<Run>, f: seq<Byte>, d: seq<Byte>, k: nat)
    requires 0 < k < |f| && NulFree(f) && f[k - 1] == NEWLINE != f[k] && Reads(RunsAfter(rs, f, k), d)
    ensures Reads(RunsAfter(rs, f, |f|), d + f[k..])
  {
    assert RunsAfter(rs, f, k + 1) == RunsAfter(rs, f, k) + [Run(1, f[k])];
    NewReads(RunsAfter(rs, f, k), d, 1, f[k]);
    assert Repeat(1, f[k]) == [f[k]] && f[k..] == [f[k]] + f[k + 1..];
    assert (d + [f[k]]) + f[k + 1..] == d + f[k..];
    RestInStep(rs, f, d + [f[k]], k + 1, d + f[k..]);
  }

  lemma Joined(a: seq<Byte>, b: seq<Byte>, c: seq<Byte>)
    ensures a + (b + c) == (a + b) + c && (c == [] ==> a + (b + c) == a + b)
  {
    assert c == [] ==> b + c == b;
  }

  lemma AfterNewlines(rs: seq<Run>, f: seq<Byte>, d: seq<Byte>, k: nat)
    requires NulFree(f) && Reads(rs, d) && 0 < k <= |f| && (k < |f| ==> f[k] != NEWLINE)
    requires forall i | 0 <= i < k :: f[i] == NEWLINE
    ensures Reads(RunsAfter(rs, f, |f|), d + (Repeat(k, d[|d| - 1]) + f[k..]))
  {
    NewlinesCarried(rs, f, d, k);
    Joined(d, Repeat(k, d[|d| - 1]), f[k..]);
    if k < |f| {
      LineAfter(rs, f, d + Repeat(k, d[|d| - 1]), k);
    }
  }

  /** The second character of a line that has begun with another character than `c`, the last one decoded. */
  lemma SecondCarried(rs: seq<Run>, f: seq<Byte>, d: seq<Byte>)
    requires |f| >= 2 && NulFree(f) && Reads(rs, d) && f[0] != NEWLINE && f[0] != d[|d| - 1]
    ensures var c := d[|d| - 1];
      var second := if f[1] == f[0] then [f[0], f[0]] else if f[1] == c then [] else [f[1]];
      Reads(RunsAfter(rs, f, 2), (d + [c]) + second) && ((d + [c]) + second)[|d| + |second|] == f[1]
  {
    var c := d[|d| - 1];
    var rs1 := RunsAfter(rs, f, 1);
    FirstCarried(rs, f, d);
    assert RunsAfter(rs, f, 2) == NextRuns(rs1, f[0], f[1], false);
    if f[1] == c {
      assert (d + [c]) + [] == d + [c];
    } else {
      var n := if f[1] == f[0] then 2 else 1;
      NewReads(rs1, d + [c], n, f[1]);
      assert Repeat(1, f[1]) == [f[1]] && Repeat(2, f[1]) == [f[1], f[1]];
    }
  }

  lemma SameCarried(rs: seq<Run>, f: seq<Byte>, d: seq<Byte>)
    requires f != [] && NulFree(f) && Reads(rs, d) && f[0] == d[|d| - 1]
    ensures Reads(RunsAfter(rs, f, |f|), d + f)
  {
    FirstCarried(rs, f, d);
    WholeFile(d, f);
    RestInStep(rs, f, d + [f[0]], 1, d + f);
  }

  lemma OtherCarried(rs: seq<Run>, f: seq<Byte>, d: seq<Byte>)
    requires |f| >= 2 && NulFree(f) && Reads(rs, d) && f[0] != NEWLINE && f[0] != d[|d| - 1]
    ensures Reads(RunsAfter(rs, f, |f|), d + Carried(d[|d| - 1], f))
  {
    var c := d[|d| - 1];
    var second := if f[1] == f[0] then [f[0], f[0]] else if f[1] == c then [] else [f[1]];
    SecondCarried(rs, f, d);
    SecondRead(c, f, d, second);
    RestInStep(rs, f, (d + [c]) + second, 2, d + Carried(c, f));
  }

  lemma SecondRead(c: Byte, f: seq<Byte>, d: seq<Byte>, second: seq<Byte>)
    requires |f| >= 2 && f[0] != NEWLINE && f[0] != c
    requires second == if f[1] == f[0] then [f[0], f[0]] else if f[1] == c then [] else [f[1]]
    ensures d + Carried(c, f) == ((d + [c]) + second) + f[2..]
  {
    assert ((d + [c]) + second) + f[2..] == d + ([c] + (second + f[2..]));
    if f[1] == f[0] {
      assert second + f[2..] == f;
    } else if f[1] == c {
      assert second + f[2..] == f[2..];
    } else {
      assert second + f[2..] == f[1..];
    }
  }

  lemma FileText(rs: seq<Run>, f: seq<Byte>, d: seq<Byte>)
    requires NulFree(f) && Reads(rs, d)
    ensures Reads(RunsAfter(rs, f, |f|), d + Carried(d[|d| - 1], f))
  {
    if f == [] {
      assert d + [] == d;
    } else if f[0] == d[|d| - 1] {
      SameCarried(rs, f, d);
    } else if f[0] == NEWLINE {
      AfterNewlines(rs, f, d, LeadingNewlines(f));
    } else if |f| == 1 {
      FirstCarried(rs, f, d);
    } else {
      OtherCarried(rs, f, d);
    }
  }

  lemma FirstText(f: seq<Byte>)
    requires f != [] && NulFree(f)
    ensures Reads(RunsAfter([], f, |f|), f)
  {
    FirstRun(f);
    RestInStep([], f, [f[0]], 1, f);
  }

  lemma FirstRun(f: seq<Byte>)
    requires f != [] && f[0] != 0
    ensures Reads(RunsAfter([], f, 1), [f[0]])
  {
    NewReads([], [], 1, f[0]);
    assert RunsAfter([], f, 0) == [];
    assert [] + [Run(1, f[0])] == [Run(1, f[0])] && [] + Repeat(1, f[0]) == [f[0]];
  }

  /** Files without NULs, of any length, the first not empty: the runs stand for the text. */
  lemma {:induction false} FilesText(files: seq<seq<Byte>>)
    requires files != [] && files[0] != [] && AllNulFree(files)
    ensures Reads(FilesRuns(files), Text(files))
  {
    var init, f := files[..|files| - 1], files[|files| - 1];
    if init == [] {
      FirstText(f);
    } else {
      FilesText(init);
      FileText(FilesRuns(init), f, Text(init));
    }
  }

  /** What decoding the output of `wzip` gives for files without NULs, the first not empty, whether or not
      they match, as long as no run is too long for its count. */
  lemma {:induction false} ManyFilesText(files: seq<seq<Byte>>)
    requires files != [] && files[0] != [] && AllNulFree(files) && Short(FilesRuns(files))
    ensures Prints(Opened(files), Zipped(files)) && Unzip(Print(Zipped(files))) == Text(files)
  {
    ExactRuns(files);
    FilesText(files);
    UnzipPrint(Zipped(files));
  }
}
