/** The run-length encoder `wzip.c`: its scanner, character by character, and its output format. */
module Wzip {
  import opened Basics

  type Byte = x: int | 0 <= x < 256
  type U32 = x: int | 0 <= x < 0x1_0000_0000

  const WRAP := 0x1_0000_0000
  const NEWLINE: Byte := 10

  datatype Token = Token(count: U32, ch: Byte)

  // ---- The pure parts of the source ----

  /** `updateTokenCount`; an unknown flag only draws an error message. */
  function UpdateTokenCount(t: Token, flag: char): Token
  {
    if flag == 's' then t.(count := (t.count + 1) % WRAP)
    else if flag == 'i' then t.(count := 1)
    else if flag == 'n' then t.(count := 0)
    else t
  }

  function UpdateTokenCh(t: Token, ch: Byte): Token
  {
    t.(ch := ch)
  }

  predicate IsFirstOrigChar(current: nat, t: Token)
  {
    current == 0 && t.count == 0 && t.ch == 0
  }

  predicate IsFirstCharRepeat(current: nat, t: Token)
  {
    current == 0 && t.count > 0 && t.ch > 0
  }

  predicate IsNewChar(current: nat, curch: Byte, lstch: Byte, t: Token)
  {
    curch != t.ch && curch != 0 && current != 0 && lstch != 0
  }

  predicate IsRepeatChar(current: nat, curch: Byte, lstch: Byte)
  {
    curch == lstch && curch != 0 && current != 0 && lstch != 0
  }

  /** The four bytes of the count, least significant first, then the character. */
  function Bytes(t: Token): seq<Byte>
  {
    [t.count % 256, t.count / 256 % 256, t.count / 65536 % 256, t.count / 16777216, t.ch]
  }

  /** The bytes of each element, one after the other. */
  function Each<T>(bytes: T -> seq<Byte>, xs: seq<T>): seq<Byte>
  {
    if xs == [] then [] else Each(bytes, xs[..|xs| - 1]) + bytes(xs[|xs| - 1])
  }

  function Print(ts: seq<Token>): seq<Byte>
  {
    Each(Bytes, ts)
  }

  // ---- The scanner as a function ----

  /** `printed` are the tokens printed so far, `t` the token being counted, `lstch` the last
      character of this file, NUL before its first. */
  datatype Scan = Scan(printed: seq<Token>, t: Token, lstch: Byte)

  /** What `readlines` does before the first character of a line. */
  function LineStep(sc: Scan, initchar: Byte): Scan
  {
    if sc.lstch != 0 && sc.lstch != initchar then
      sc.(printed := sc.printed + [sc.t], t := UpdateTokenCh(UpdateTokenCount(sc.t, 'n'), 0))
    else sc
  }

  /** The body of the inner loop of `readlines`; the order of its four tests matters. */
  function CharStep(sc: Scan, current: nat, curch: Byte): Scan
  {
    var t1 := if IsFirstCharRepeat(current, sc.t) then UpdateTokenCount(sc.t, 's') else sc.t;
    var t2 := if IsFirstOrigChar(current, t1) then UpdateTokenCh(UpdateTokenCount(t1, 'i'), curch) else t1;
    var isNew := IsNewChar(current, curch, sc.lstch, t2);
    var printed := if isNew then sc.printed + [t2] else sc.printed;
    var t3 := if isNew then UpdateTokenCh(UpdateTokenCount(t2, 'i'), curch) else t2;
    var t4 := if IsRepeatChar(current, curch, sc.lstch) then UpdateTokenCount(t3, 's') else t3;
    Scan(printed, t4, curch)
  }

  /** Does a line of `getline` begin at position `i`? */
  predicate LineStart(f: seq<Byte>, i: nat)
    requires i < |f|
  {
    i == 0 || f[i - 1] == NEWLINE
  }

  /** The position in its line of the character at position `i`. */
  function Column(f: seq<Byte>, i: nat): nat
    requires i < |f|
  {
    if LineStart(f, i) then 0 else 1 + Column(f, i - 1)
  }

  function Step(sc: Scan, f: seq<Byte>, i: nat): Scan
    requires i < |f|
  {
    CharStep(if LineStart(f, i) then LineStep(sc, f[i]) else sc, Column(f, i), f[i])
  }

  /** The scanner after the first `n` characters of file `f`, starting with token `t`. */
  function ScanFile(t: Token, f: seq<Byte>, n: nat): Scan
    requires n <= |f|
  {
    if n == 0 then Scan([], t, 0) else Step(ScanFile(t, f, n - 1), f, n - 1)
  }

  /** A file as `procfiles` reads it: once more if the first time leaves a token that counts zero. */
  function ReadFile(t: Token, f: seq<Byte>): Scan
  {
    var sc := ScanFile(t, f, |f|);
    if sc.t.count != 0 then sc
    else
      var again := ScanFile(sc.t, f, |f|);
      again.(printed := sc.printed + again.printed)
  }

  /** All files: what is printed, and the token left to flush. */
  function ScanFiles(files: seq<seq<Byte>>): Scan
  {
    if files == [] then Scan([], Token(0, 0), 0)
    else
      var before, f := ScanFiles(files[..|files| - 1]), files[|files| - 1];
      var sc := ReadFile(before.t, f);
      sc.(printed := before.printed + sc.printed)
  }

  /** Every file leaves a token that counts something; otherwise `procfiles` never gets past it. */
  predicate EachCounted(files: seq<seq<Byte>>)
  {
    files == [] || (EachCounted(files[..|files| - 1]) && ScanFiles(files).t.count != 0)
  }

  /** What `wzip` has printed after the final flush. */
  function Zipped(files: seq<seq<Byte>>): seq<Token>
  {
    ScanFiles(files).printed + [ScanFiles(files).t]
  }

  // ---- Lines ----

  /** Where the line that `getline` reads from position `pos` ends. */
  function LineEnd(f: seq<Byte>, pos: nat): (e: nat)
    requires pos < |f|
    ensures pos < e <= |f|
    ensures forall i | pos <= i < e - 1 :: f[i] != NEWLINE
    ensures e < |f| ==> f[e - 1] == NEWLINE
    decreases |f| - pos
  {
    if f[pos] == NEWLINE || pos + 1 == |f| then pos + 1 else LineEnd(f, pos + 1)
  }

  lemma {:induction false} ColumnInLine(f: seq<Byte>, pos: nat, i: nat)
    requires pos <= i < |f| && LineStart(f, pos) && forall k | pos <= k < i :: f[k] != NEWLINE
    ensures Column(f, i) == i - pos
  {
    if pos < i {
      ColumnInLine(f, pos, i - 1);
    }
  }

  /** The scanner `k` characters into the line that begins at `pos`, the check before it done. */
  ghost function InLine(t: Token, f: seq<Byte>, pos: nat, k: nat): Scan
    requires pos < |f| && pos + k <= |f|
  {
    if k == 0 then LineStep(ScanFile(t, f, pos), f[pos]) else ScanFile(t, f, pos + k)
  }

  lemma NextInLine(t: Token, f: seq<Byte>, pos: nat, k: nat)
    requires pos + k < |f| && LineStart(f, pos) && forall i | pos <= i < pos + k :: f[i] != NEWLINE
    ensures InLine(t, f, pos, k + 1) == CharStep(InLine(t, f, pos, k), k, f[pos + k])
  {
    ColumnInLine(f, pos, pos + k);
    assert ScanFile(t, f, pos + k + 1) == Step(ScanFile(t, f, pos + k), f, pos + k);
  }

  lemma {:induction false} EachAppend<T>(bytes: T -> seq<Byte>, a: seq<T>, b: seq<T>)
    ensures Each(bytes, a + b) == Each(bytes, a) + Each(bytes, b)
  {
    if b == [] {
      assert a + b == a;
    } else {
      var n := |b| - 1;
      EachAppend(bytes, a, b[..n]);
      assert (a + b)[..|a| + n] == a + b[..n] && (a + b)[|a| + n] == b[n];
    }
  }

  lemma PrintAppend(a: seq<Token>, b: seq<Token>)
    ensures Print(a + b) == Print(a) + Print(b)
  {
    EachAppend(Bytes, a, b);
  }

  lemma PrintLast(ts: seq<Token>, t: Token)
    ensures Print(ts + [t]) == Print(ts) + Bytes(t)
  {
    assert (ts + [t])[..|ts|] == ts;
  }

  /** All characters of the files. */
  function Concat(files: seq<seq<Byte>>): seq<Byte>
  {
    if files == [] then [] else Concat(files[..|files| - 1]) + files[|files| - 1]
  }

  lemma CharCounts(sc: Scan, current: nat, c: Byte)
    requires sc.t.count + 1 < WRAP && (sc.t.count > 0 || (current == 0 && sc.t.ch == 0))
    ensures var count := CharStep(sc, current, c).t.count;
      1 <= count <= sc.t.count + 1 || (current != 0 && count == 2)
  {
  }

  lemma StepCounts(sc: Scan, f: seq<Byte>, i: nat)
    requires i < |f| && sc.t.count + 1 < WRAP && (sc.t.count > 0 || (i == 0 && sc.t.ch == 0))
    ensures 1 <= Step(sc, f, i).t.count <= sc.t.count + 1 || (i > 0 && Step(sc, f, i).t.count == 2)
  {
    CharCounts(if LineStart(f, i) then LineStep(sc, f[i]) else sc, Column(f, i), f[i]);
  }

  /** While the counter cannot overflow, a token that has begun to count never counts zero. */
  lemma {:induction false} Counts(t: Token, f: seq<Byte>, n: nat)
    requires n <= |f| && t.count + n < WRAP && (t.count > 0 || t == Token(0, 0))
    ensures t.count > 0 || n > 0 ==> 1 <= ScanFile(t, f, n).t.count <= t.count + n
  {
    if n > 0 {
      Counts(t, f, n - 1);
      StepCounts(ScanFile(t, f, n - 1), f, n - 1);
    }
  }

  /** One more file: what was counted before and what it leaves. */
  lemma NextCount(files: seq<seq<Byte>>)
    requires files != [] && (|files| > 1 ==> 1 <= ScanFiles(files[..|files| - 1]).t.count)
    requires ScanFiles(files[..|files| - 1]).t.count + |files[|files| - 1]| < WRAP
    requires |files| > 1 || files[0] != []
    ensures var t, f := ScanFiles(files[..|files| - 1]).t, files[|files| - 1];
      1 <= ScanFiles(files).t.count <= t.count + |f| && ReadFile(t, f) == ScanFile(t, f, |f|)
  {
    var t, f := ScanFiles(files[..|files| - 1]).t, files[|files| - 1];
    Counts(t, f, |f|);
  }

  /** Files of less than 2^32 bytes together are read once each, if the first is not empty. */
  lemma {:induction false} FilesCount(files: seq<seq<Byte>>)
    requires files != [] && files[0] != [] && |Concat(files)| < WRAP
    ensures 1 <= ScanFiles(files).t.count <= |Concat(files)| && EachCounted(files)
  {
    var n := |files| - 1;
    if n > 0 {
      FilesCount(files[..n]);
    }
    NextCount(files);
  }

  // ---- Reading a file again ----

  /** While a file is read from token `b.t`, which began as a zero count of `c`, as it was read from
      another: either nothing tells the two apart any more, or the second has the other's character or `c`. */
  ghost predicate Follows(a: Scan, b: Scan, c: Byte)
  {
    && a.lstch == b.lstch
    && (a.t == b.t || (b.t.ch != 0 && (a.t.ch == b.t.ch || b.t.ch == c)))
  }

  lemma CharFollows(a: Scan, b: Scan, c: Byte, current: nat, curch: Byte)
    requires Follows(a, b, c)
    ensures Follows(CharStep(a, current, curch), CharStep(b, current, curch), c)
  {
  }

  lemma {:induction false} FileFollows(t: Token, c: Byte, f: seq<Byte>, n: nat)
    requires n <= |f| && c != 0
    ensures Follows(ScanFile(t, f, n), ScanFile(Token(0, c), f, n), c)
  {
    if n > 0 {
      FileFollows(t, c, f, n - 1);
      var a, b := ScanFile(t, f, n - 1), ScanFile(Token(0, c), f, n - 1);
      if LineStart(f, n - 1) {
        CharFollows(LineStep(a, f[n - 1]), LineStep(b, f[n - 1]), c, Column(f, n - 1), f[n - 1]);
      } else {
        CharFollows(a, b, c, Column(f, n - 1), f[n - 1]);
      }
    }
  }

  lemma {:induction false} NulCounts(t: Token, f: seq<Byte>, n: nat)
    requires 0 < n <= |f|
    ensures ScanFile(t, f, n).t != Token(0, 0)
  {
    if n > 1 {
      NulCounts(t, f, n - 1);
    } else {
      assert ScanFile(t, f, 0) == Scan([], t, 0);
    }
  }

  /** Reading a file again after a zero count gives a token of the same character. If it counts
      zero again, it is the same token, and so it will be for ever. */
  lemma AgainTheSame(t: Token, f: seq<Byte>)
    requires ScanFile(t, f, |f|).t.count == 0
    ensures var t1 := ScanFile(t, f, |f|).t;
      ScanFile(t1, f, |f|).t.ch == t1.ch && (ScanFile(t1, f, |f|).t.count == 0 ==> ScanFile(t1, f, |f|).t == t1)
  {
    var t1 := ScanFile(t, f, |f|).t;
    if f == [] {
      assert t1 == t;
    } else {
      NulCounts(t, f, |f|);
      FileFollows(t, t1.ch, f, |f|);
    }
  }
}
