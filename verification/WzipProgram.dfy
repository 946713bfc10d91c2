/** `procfiles` and `main` of `wzip.c`: which files are read how often, when that ends, and what it
    writes to the output stream. */
module WzipProgram {
  import opened Basics
  import opened Wzip

  /** The contents of the files named on the command line, up to the first that cannot be opened. */
  function Readable(args: seq<Option<seq<Byte>>>): seq<seq<Byte>>
  {
    if args == [] || args[0] == None then [] else [args[0].value] + Readable(args[1..])
  }

  lemma {:induction false} ReadablePrefix(args: seq<Option<seq<Byte>>>, i: nat)
    requires i <= |args| && forall k | 0 <= k < i :: args[k].Some?
    ensures i <= |Readable(args)| && Readable(args)[..i] == seq(i, k requires 0 <= k < i => args[k].value)
    ensures i == |args| || args[i] == None ==> |Readable(args)| == i
    ensures i < |args| && args[i].Some? ==> i < |Readable(args)| && Readable(args)[i] == args[i].value
  {
    if i > 0 {
      ReadablePrefix(args[1..], i - 1);
    }
  }

  lemma Associates<T>(a: seq<T>, b: seq<T>, c: seq<T>)
    ensures a + (b + c) == (a + b) + c
  {
  }

  lemma StopsAt(args: seq<Option<seq<Byte>>>, i: nat)
    requires i <= |args| && (forall k | 0 <= k < i :: args[k].Some?) && (i == |args| || args[i] == None)
    ensures |Readable(args)| == i && Readable(args)[..i] == Readable(args)
  {
    ReadablePrefix(args, i);
  }

  /** `procfiles` between two iterations: `failed` once a file could not be opened. */
  datatype Progress = Progress(i: nat, t: Token, printed: seq<Token>, failed: bool)

  predicate Ended(args: seq<Option<seq<Byte>>>, p: Progress)
  {
    p.failed || p.i >= |args|
  }

  /** One iteration: a file that leaves the token counting zero is taken again. */
  function Pass(args: seq<Option<seq<Byte>>>, p: Progress): Progress
  {
    if Ended(args, p) then p
    else if args[p.i] == None then p.(failed := true)
    else
      var f := args[p.i].value;
      var sc := ScanFile(p.t, f, |f|);
      Progress(if sc.t.count != 0 then p.i + 1 else p.i, sc.t, p.printed + sc.printed, false)
  }

  function Passes(args: seq<Option<seq<Byte>>>, k: nat): Progress
  {
    if k == 0 then Progress(0, Token(0, 0), [], false) else Pass(args, Passes(args, k - 1))
  }

  ghost predicate Ends(args: seq<Option<seq<Byte>>>)
  {
    exists k: nat :: Ended(args, Passes(args, k))
  }

  lemma {:induction false} EndedStays(args: seq<Option<seq<Byte>>>, j: nat, k: nat)
    requires j <= k && Ended(args, Passes(args, j))
    ensures Passes(args, k) == Passes(args, j)
    decreases k
  {
    if j < k {
      EndedStays(args, j, k - 1);
    }
  }

  lemma {:induction false} AllRead(args: seq<Option<seq<Byte>>>)
    ensures |Readable(args)| <= |args| && (|Readable(args)| < |args| ==> args[|Readable(args)|] == None)
    ensures forall j | 0 <= j < |Readable(args)| :: args[j] == Some(Readable(args)[j])
  {
    if args != [] && args[0].Some? {
      AllRead(args[1..]);
    }
  }

  /** The files before the `i`-th are read in some number of passes, if each leaves something counted. */
  lemma {:induction false} PassesTo(args: seq<Option<seq<Byte>>>, i: nat) returns (k: nat)
    requires i <= |Readable(args)| && EachCounted(Readable(args)[..i])
    ensures var sc := ScanFiles(Readable(args)[..i]); Passes(args, k) == Progress(i, sc.t, sc.printed, false)
  {
    var files := Readable(args);
    if i == 0 {
      k := 0;
    } else {
      assert files[..i][..i - 1] == files[..i - 1];
      k := PassesTo(args, i - 1);
      AllRead(args);
      NextRead(files, i - 1);
      var more := PassFile(args, Passes(args, k), files[i - 1], k);
      k := k + more;
    }
  }

  /** One pass, or two, get a file read. */
  lemma PassFile(args: seq<Option<seq<Byte>>>, p: Progress, f: seq<Byte>, k: nat) returns (more: nat)
    requires p == Passes(args, k) && !p.failed && p.i < |args| && args[p.i] == Some(f)
    requires ReadFile(p.t, f).t.count != 0
    ensures var sc := ReadFile(p.t, f);
      Passes(args, k + more) == Progress(p.i + 1, sc.t, p.printed + sc.printed, false)
  {
    var sc := ScanFile(p.t, f, |f|);
    if sc.t.count != 0 {
      more := 1;
    } else {
      more := 2;
      assert Passes(args, k + 1) == Progress(p.i, sc.t, p.printed + sc.printed, false);
      assert Passes(args, k + 2) == Pass(args, Passes(args, k + 1));
      Associates(p.printed, sc.printed, ScanFile(sc.t, f, |f|).printed);
    }
  }

  /** A file that leaves nothing counted twice is read for ever. */
  lemma {:induction false} ForEver(args: seq<Option<seq<Byte>>>, p: Progress, f: seq<Byte>, k: nat, m: nat)
    requires p == Passes(args, k) && !p.failed && p.i < |args| && args[p.i] == Some(f)
    requires ReadFile(p.t, f).t.count == 0 && m > k
    ensures var q := Passes(args, m); q.i == p.i && !q.failed && q.t == ScanFile(p.t, f, |f|).t
  {
    AgainTheSame(p.t, f);
    if m > k + 1 {
      ForEver(args, p, f, k, m - 1);
    }
  }

  lemma {:induction false} FirstUncounted(files: seq<seq<Byte>>) returns (i: nat)
    requires !EachCounted(files)
    ensures i < |files| && EachCounted(files[..i]) && ScanFiles(files[..i + 1]).t.count == 0
  {
    var n := |files| - 1;
    if EachCounted(files[..n]) {
      i := n;
      assert files[..n + 1] == files;
    } else {
      i := FirstUncounted(files[..n]);
      assert files[..n][..i] == files[..i] && files[..n][..i + 1] == files[..i + 1];
    }
  }

  lemma NextRead(files: seq<seq<Byte>>, i: nat)
    requires i < |files|
    ensures var before := ScanFiles(files[..i]);
      var sc := ReadFile(before.t, files[i]);
      ScanFiles(files[..i + 1]) == sc.(printed := before.printed + sc.printed)
  {
    assert files[..i + 1][..i] == files[..i];
  }

  lemma NeverEnds(args: seq<Option<seq<Byte>>>)
    requires !EachCounted(Readable(args))
    ensures !Ends(args)
  {
    var i := FirstUncounted(Readable(args));
    var k := PassesTo(args, i);
    AllRead(args);
    NextRead(Readable(args), i);
    forall j: nat
      ensures !Ended(args, Passes(args, j))
    {
      NotEnded(args, Passes(args, k), Readable(args)[i], k, j);
    }
  }

  lemma NotEnded(args: seq<Option<seq<Byte>>>, p: Progress, f: seq<Byte>, k: nat, j: nat)
    requires p == Passes(args, k) && !p.failed && p.i < |args| && args[p.i] == Some(f)
    requires ReadFile(p.t, f).t.count == 0
    ensures !Ended(args, Passes(args, j))
  {
    ForEver(args, p, f, k, k + j + 1);
    if Ended(args, Passes(args, j)) {
      EndedStays(args, j, k + j + 1);
    }
  }

  lemma GetsToTheEnd(args: seq<Option<seq<Byte>>>) returns (k: nat)
    requires EachCounted(Readable(args))
    ensures var p, sc := Passes(args, k), ScanFiles(Readable(args));
      && Ended(args, p) && p.t == sc.t && p.printed == sc.printed
      && (p.failed <==> |Readable(args)| < |args|)
  {
    var n := |Readable(args)|;
    assert Readable(args)[..n] == Readable(args);
    AllRead(args);
    k := PassesTo(args, n);
    if n < |args| {
      k := k + 1;
    }
  }

  /** `procfiles` ends exactly when every file it can open leaves something counted, and then it
      has printed, and still counts, what `ScanFiles` says. */
  lemma EndsExactly(args: seq<Option<seq<Byte>>>)
    ensures Ends(args) <==> EachCounted(Readable(args))
    ensures forall k: nat | Ended(args, Passes(args, k)) ::
      var p, sc := Passes(args, k), ScanFiles(Readable(args));
      p.t == sc.t && p.printed == sc.printed && (p.failed <==> |Readable(args)| < |args|)
  {
    if EachCounted(Readable(args)) {
      var n := GetsToTheEnd(args);
      forall k: nat | Ended(args, Passes(args, k))
        ensures Passes(args, k) == Passes(args, n)
      {
        if k <= n { EndedStays(args, k, n); } else { EndedStays(args, n, k); }
      }
    } else {
      NeverEnds(args);
    }
  }

  /** While no count can overflow that means: the first file is not empty. */
  lemma EndsUnlessEmpty(args: seq<Option<seq<Byte>>>)
    requires args != [] && |Concat(Readable(args))| < WRAP
    ensures Ends(args) <==> args[0] != Some([])
  {
    EndsExactly(args);
    var files := Readable(args);
    if args[0] == Some([]) {
      EmptyCounts(files);
    } else if args[0] != None {
      FilesCount(files);
    }
  }

  /** An empty first file leaves nothing counted. */
  lemma EmptyCounts(files: seq<seq<Byte>>)
    requires files != [] && files[0] == []
    ensures !EachCounted(files)
  {
    assert files[..1][..0] == [] && files[..1] == [[]];
    assert ScanFile(Token(0, 0), [], 0).t == Token(0, 0);
    assert ScanFiles(files[..1]).t == ReadFile(ScanFiles([]).t, []).t;
  }

  /** The program ends without an error, having printed `ts`, the last token included. */
  ghost predicate Prints(args: seq<Option<seq<Byte>>>, ts: seq<Token>)
  {
    exists k: nat ::
      Ended(args, Passes(args, k)) && !Passes(args, k).failed && Passes(args, k).printed + [Passes(args, k).t] == ts
  }

  function Opened(files: seq<seq<Byte>>): seq<Option<seq<Byte>>>
  {
    if files == [] then [] else [Some(files[0])] + Opened(files[1..])
  }

  lemma {:induction false} ReadableOpened(files: seq<seq<Byte>>)
    ensures |Opened(files)| == |files| && Readable(Opened(files)) == files
  {
    if files != [] {
      ReadableOpened(files[1..]);
    }
  }

  lemma PrintsExactly(files: seq<seq<Byte>>, ts: seq<Token>)
    ensures Prints(Opened(files), ts) <==> EachCounted(files) && ts == Zipped(files)
  {
    ReadableOpened(files);
    EndsExactly(Opened(files));
    if EachCounted(files) {
      var k := GetsToTheEnd(Opened(files));
      assert Ended(Opened(files), Passes(Opened(files), k));
    }
  }

  // ---- The program, writing to its output stream ----

  /** Flushing the last token after the last file. */
  lemma Flushed(args: seq<Option<seq<Byte>>>, start: seq<Byte>, out: seq<Byte>)
    requires forall k | 0 <= k < |args| :: args[k].Some?
    requires |args| <= |Readable(args)| && out == start + Print(ScanFiles(Readable(args)[..|args|]).printed)
    ensures |Readable(args)| == |args|
    ensures out + Bytes(ScanFiles(Readable(args)[..|args|]).t) == start + Print(Zipped(Readable(args)))
  {
    StopsAt(args, |args|);
    PrintLast(ScanFiles(Readable(args)).printed, ScanFiles(Readable(args)).t);
  }

  /** The scanner before the `i`-th file, or when that file has been read and has to be read again. */
  ghost function Current(files: seq<seq<Byte>>, i: nat, again: bool): Scan
    requires i <= |files| && (again ==> i < |files|)
  {
    var before := ScanFiles(files[..i]);
    if again then
      var sc := ScanFile(before.t, files[i], |files[i]|);
      sc.(printed := before.printed + sc.printed)
    else before
  }

  lemma PrintMore(start: seq<Byte>, a: seq<Token>, b: seq<Token>)
    ensures start + Print(a + b) == (start + Print(a)) + Print(b)
  {
    PrintAppend(a, b);
    Associates(start, Print(a), Print(b));
  }

  lemma {:induction false} CountedAt(files: seq<seq<Byte>>, i: nat)
    requires i < |files| && EachCounted(files)
    ensures ScanFiles(files[..i + 1]).t.count != 0
  {
    var n := |files| - 1;
    if i < n {
      CountedAt(files[..n], i);
      assert files[..n][..i + 1] == files[..i + 1];
    } else {
      assert files[..i + 1] == files;
    }
  }

  lemma OnePass(files: seq<seq<Byte>>, i: nat, again: bool)
    requires i < |files|
    requires again ==> Current(files, i, true).t.count == 0
    ensures var now, f := Current(files, i, again), files[i];
      var next := ScanFile(now.t, f, |f|);
      var sc := if again || next.t.count != 0 then ScanFiles(files[..i + 1]) else Current(files, i, true);
      next.t == sc.t && now.printed + next.printed == sc.printed
  {
    assert files[..i + 1][..i] == files[..i];
  }

  const CANNOT_OPEN: seq<Byte> := [119, 122, 105, 112, 58, 32, 99, 97, 110, 110, 111, 116, 32, 111, 112, 101, 110, 32,
    102, 105, 108, 101, 10]

  class Program {
    var stdout: seq<Byte>

    constructor ()
      ensures stdout == []
    {
      stdout := [];
    }

    method PrintToken(t: Token)
      modifies this
      ensures stdout == old(stdout) + Bytes(t)
    {
      stdout := stdout + Bytes(t);
    }

    /** One character, at position `current` of its line. */
    method ScanChar(current: nat, curch: Byte, lstch: Byte, t0: Token, ghost sc: Scan, ghost start: seq<Byte>)
      returns (t: Token)
      requires sc.t == t0 && sc.lstch == lstch && stdout == start + Print(sc.printed)
      modifies this
      ensures t == CharStep(sc, current, curch).t
      ensures stdout == start + Print(CharStep(sc, current, curch).printed)
    {
      t := t0;
      if IsFirstCharRepeat(current, t) {
        t := UpdateTokenCount(t, 's');
      }
      if IsFirstOrigChar(current, t) {
        t := UpdateTokenCount(t, 'i');
        t := UpdateTokenCh(t, curch);
      }
      if IsNewChar(current, curch, lstch, t) {
        PrintLast(sc.printed, t);
        PrintToken(t);
        t := UpdateTokenCount(t, 'i');
        t := UpdateTokenCh(t, curch);
      }
      if IsRepeatChar(current, curch, lstch) {
        t := UpdateTokenCount(t, 's');
      }
    }

    /** The check before a line: if the token carried over is of another character, print it. */
    method BeginLine(initchar: Byte, lstch: Byte, t0: Token, ghost sc: Scan, ghost start: seq<Byte>) returns (t: Token)
      requires sc.t == t0 && sc.lstch == lstch && stdout == start + Print(sc.printed)
      modifies this
      ensures t == LineStep(sc, initchar).t
      ensures stdout == start + Print(LineStep(sc, initchar).printed)
    {
      t := t0;
      if lstch != 0 && lstch != initchar {
        PrintLast(sc.printed, t);
        PrintToken(t);
        t := UpdateTokenCount(t, 'n');
        t := UpdateTokenCh(t, 0);
      }
    }

    /** The inner loop of `readlines`, over the line `f[pos..end]`. */
    method ScanLine(f: seq<Byte>, pos: nat, end: nat, t0: Token, lstch0: Byte, ghost first: Token,
                    ghost start: seq<Byte>)
      returns (t: Token, lstch: Byte)
      requires pos < end <= |f| && LineStart(f, pos) && forall i | pos <= i < end - 1 :: f[i] != NEWLINE
      requires ScanFile(first, f, pos).t == t0 && ScanFile(first, f, pos).lstch == lstch0
      requires stdout == start + Print(ScanFile(first, f, pos).printed)
      modifies this
      ensures ScanFile(first, f, end).t == t && ScanFile(first, f, end).lstch == lstch
      ensures stdout == start + Print(ScanFile(first, f, end).printed)
    {
      var line := f[pos..end];
      ghost var sc := ScanFile(first, f, pos);
      t := BeginLine(line[0], lstch0, t0, sc, start);
      sc := InLine(first, f, pos, 0);
      lstch := lstch0;
      for current := 0 to |line|
        invariant sc == InLine(first, f, pos, current)
        invariant sc.t == t && sc.lstch == lstch && stdout == start + Print(sc.printed)
      {
        var curch := line[current];
        NextInLine(first, f, pos, current);
        t := ScanChar(current, curch, lstch, t, sc, start);
        sc := InLine(first, f, pos, current + 1);
        lstch := curch;
      }
    }

    /** `readlines`: the lines of one file, one after the other. */
    method ReadLines(f: seq<Byte>, t0: Token) returns (t: Token)
      modifies this
      ensures t == ScanFile(t0, f, |f|).t
      ensures stdout == old(stdout) + Print(ScanFile(t0, f, |f|).printed)
    {
      var lstch: Byte := 0;
      var pos := 0;
      t := t0;
      while pos < |f|
        invariant pos <= |f| && (pos < |f| ==> LineStart(f, pos))
        invariant ScanFile(t0, f, pos).t == t && ScanFile(t0, f, pos).lstch == lstch
        invariant stdout == old(stdout) + Print(ScanFile(t0, f, pos).printed)
      {
        var end := LineEnd(f, pos);
        t, lstch := ScanLine(f, pos, end, t, lstch, t0, old(stdout));
        pos := end;
      }
    }

    /** One iteration of `procfiles` for a file that can be opened, the first time or `again`. */
    method ProcFile(args: seq<Option<seq<Byte>>>, i: nat, curtok: Token, ghost again: bool, ghost start: seq<Byte>)
      returns (t: Token)
      requires i < |Readable(args)| <= |args| && args[i] == Some(Readable(args)[i])
      requires curtok == Current(Readable(args), i, again).t
      requires stdout == start + Print(Current(Readable(args), i, again).printed)
      requires again ==> curtok.count == 0
      modifies this
      ensures var files := Readable(args);
        var sc := if again || t.count != 0 then ScanFiles(files[..i + 1]) else Current(files, i, true);
        t == sc.t && stdout == start + Print(sc.printed)
    {
      OnePass(Readable(args), i, again);
      ghost var sc := Current(Readable(args), i, again);
      PrintMore(start, sc.printed, ScanFile(curtok, args[i].value, |args[i].value|).printed);
      t := ReadLines(args[i].value, curtok);
    }

    /** `procfiles`, for all files it can get through (`EndsExactly`). */
    method ProcFiles(args: seq<Option<seq<Byte>>>) returns (succ: int)
      requires args != [] && EachCounted(Readable(args))
      modifies this
      ensures succ == if |Readable(args)| == |args| then 0 else 1
      ensures stdout == old(stdout) + if succ == 0 then Print(Zipped(Readable(args)))
                                      else Print(ScanFiles(Readable(args)).printed) + CANNOT_OPEN
    {
      ghost var files, again := Readable(args), false;
      AllRead(args);
      var curtok := Token(0, 0);
      var i := 0;
      while i < |args|
        invariant i <= |files| && (again ==> i < |files| && curtok.count == 0)
        invariant i < |args| ==> curtok == Current(files, i, again).t
        invariant i < |args| ==> stdout == old(stdout) + Print(Current(files, i, again).printed)
        invariant i == |args| ==> |files| == i && stdout == old(stdout) + Print(Zipped(files))
        decreases |args| - i, if again then 0 else 1
      {
        if args[i] == None {
          StopsAt(args, i);
          stdout := stdout + CANNOT_OPEN;
          return 1;
        }
        CountedAt(files, i);
        curtok := ProcFile(args, i, curtok, again, old(stdout));
        again := curtok.count == 0;
        if curtok.count != 0 {
          i := i + 1;
        }
        if i >= |args| {
          Flushed(args, old(stdout), stdout);
          PrintToken(curtok);
        }
      }
      return 0;
    }
  }
}
