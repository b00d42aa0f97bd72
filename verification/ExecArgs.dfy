/**
 Process arguments from the kernel to the collector: the packing loop and the exit copy
 (ebpf/src/execsnoop.bpf.c), and the parser that takes them apart
 (pkg/performance/collectors/execsnoop.go).
 */
module ExecArgs {
  import opened Bytes

  const ARGSIZE := 128
  const FULL_MAX_ARGS_ARR := 7680
  const DEFAULT_MAXARGS := 20
  const HEADER := 40
  const NUL: byte := '\0'

  /** A user pointer: null, one that cannot be read, or a string, whose bytes are not zero. */
  datatype Pointer = Null | Fault | Text(text: Bytes)

  predicate NulFree(s: Bytes) {
    forall i :: 0 <= i < |s| ==> s[i] != NUL
  }

  predicate WellFormed(argv: seq<Pointer>) {
    forall i :: 0 <= i < |argv| && argv[i].Text? ==> NulFree(argv[i].text)
  }

  // ---------- What is captured ----------

  /** A string cut to what fits a slot with its terminator. */
  function Cut(s: Bytes): (r: Bytes)
    ensures r <= s && |r| == if |s| < 128 then |s| else 127
  {
    if |s| < ARGSIZE then s else s[..ARGSIZE - 1]
  }

  /** How many pointers from `i` on are captured: up to `limit`, and to the first that is not a string. */
  function Taken(argv: seq<Pointer>, limit: int, i: nat): (n: nat)
    requires i <= |argv| && forall k :: 0 <= k < i ==> argv[k].Text?
    ensures i <= n <= |argv| && (forall k :: 0 <= k < n ==> argv[k].Text?)
    ensures n > i ==> n <= limit
    ensures n < limit && n < |argv| ==> !argv[n].Text?
    decreases |argv| - i
  {
    if i < limit && i < |argv| && argv[i].Text? then Taken(argv, limit, i + 1) else i
  }

  /** The arguments before the first bad pointer, at most `limit`, each cut. */
  function Captured(argv: seq<Pointer>, limit: int): (r: seq<Bytes>) {
    var n := Taken(argv, limit, 0);
    seq(n, i requires 0 <= i < n => Cut(argv[i].text))
  }

  /**
   What is kept of the arguments: at most twenty and at most the configured number, up to
   the first bad pointer, each whole if it is under 128 bytes and else its first 127.
   */
  predicate Keeps(argv: seq<Pointer>, maxArgs: int, c: seq<Bytes>) {
    && |c| <= |argv| && |c| <= 20 && (|c| <= maxArgs || c == [])
    && (|c| == |argv| || |c| == 20 || |c| >= maxArgs || !argv[|c|].Text?)
    && forall i :: 0 <= i < |c| ==>
         argv[i].Text? && c[i] == if |argv[i].text| < 128 then argv[i].text else argv[i].text[..127]
  }

  lemma CapturedKeeps(argv: seq<Pointer>, maxArgs: int)
    ensures Keeps(argv, maxArgs, Captured(argv, Limit(maxArgs)))
  {
    var c := Captured(argv, Limit(maxArgs));
    forall i | 0 <= i < |c| ensures argv[i].Text? && c[i] == Cut(argv[i].text) {
    }
  }

  predicate AllTexts(argv: seq<Pointer>) {
    forall i :: 0 <= i < |argv| ==> argv[i].Text?
  }

  /** The user's arguments. */
  function Texts(argv: seq<Pointer>): (r: seq<Bytes>)
    requires AllTexts(argv)
    ensures |r| == |argv| && forall i :: 0 <= i < |r| ==> argv[i] == Text(r[i])
  {
    seq(|argv|, i requires 0 <= i < |argv| => argv[i].text)
  }

  /** The arguments of a process are captured unchanged if and only if there are few enough and each is short enough. */
  lemma CapturedWholeIff(argv: seq<Pointer>, maxArgs: int)
    requires AllTexts(argv)
    ensures Captured(argv, Limit(maxArgs)) == Texts(argv) <==>
            && |argv| <= 20 && (|argv| <= maxArgs || argv == [])
            && forall i :: 0 <= i < |argv| ==> |argv[i].text| < 128
  {
    var c, t := Captured(argv, Limit(maxArgs)), Texts(argv);
    CapturedKeeps(argv, maxArgs);
    if c == t {
      forall i | 0 <= i < |argv| ensures |argv[i].text| < 128 {
        assert c[i] == t[i] == argv[i].text;
      }
    }
  }

  /** The strings end to end, each with its terminator. */
  function Laid(args: seq<Bytes>): (r: Bytes)
    ensures |r| >= |args|
  {
    if args == [] then [] else Laid(args[..|args| - 1]) + args[|args| - 1] + [NUL]
  }

  lemma LaidSnoc(args: seq<Bytes>, s: Bytes)
    ensures Laid(args + [s]) == Laid(args) + s + [NUL]
  {
    assert (args + [s])[..|args|] == args;
  }

  lemma {:induction false} LaidBound(args: seq<Bytes>)
    requires forall i :: 0 <= i < |args| ==> |args[i]| < ARGSIZE
    ensures |Laid(args)| <= ARGSIZE * |args|
  {
    if args != [] {
      LaidBound(args[..|args| - 1]);
    }
  }

  function Limit(maxArgs: int): int {
    if maxArgs < DEFAULT_MAXARGS then maxArgs else DEFAULT_MAXARGS
  }

  lemma CapturedPrefix(argv: seq<Pointer>, limit: int, i: nat)
    requires i < |Captured(argv, limit)|
    ensures i < |argv| && argv[i].Text?
    ensures Captured(argv, limit)[..i] + [Cut(argv[i].text)] == Captured(argv, limit)[..i + 1]
  {
  }

  /**
   The loop at the entry of execve.  Slots of `args` that were not written keep what they
   held.  The two bounds tests of the loop never stop it.
   */
  method Pack(argv: seq<Pointer>, maxArgs: int, args: array<byte>) returns (count: int, size: int)
    requires args.Length == FULL_MAX_ARGS_ARR
    modifies args
    ensures var c := Captured(argv, Limit(maxArgs));
            && count == |c| && size == |Laid(c)| <= 2560 && args[..size] == Laid(c)
            && Keeps(argv, maxArgs, c)
  {
    count, size := PackLoop(argv, maxArgs, args);
    CapturedKeeps(argv, maxArgs);
  }

  lemma CapturedEnd(argv: seq<Pointer>, limit: int, i: nat)
    requires i <= |Captured(argv, limit)| && (i >= limit || i >= |argv| || !argv[i].Text?)
    ensures i == |Captured(argv, limit)|
  {
  }

  method PackLoop(argv: seq<Pointer>, maxArgs: int, args: array<byte>) returns (count: int, size: int)
    requires args.Length == FULL_MAX_ARGS_ARR
    modifies args
    ensures var c := Captured(argv, Limit(maxArgs));
            count == |c| && size == |Laid(c)| <= 2560 && args[..size] == Laid(c)
  {
    count, size := 0, 0;
    ghost var c, done := Captured(argv, Limit(maxArgs)), [];
    var i := 0;
    while i < DEFAULT_MAXARGS && i < maxArgs
      invariant 0 <= i <= DEFAULT_MAXARGS && count == i <= |c| && done == c[..i]
      invariant size == |Laid(done)| <= i * ARGSIZE && args[..size] == Laid(done)
      decreases DEFAULT_MAXARGS - i
    {
      if i >= |argv| || argv[i].Null? {
        break;
      }
      if size > FULL_MAX_ARGS_ARR - ARGSIZE {
        assert false;
        break;
      }
      if argv[i].Fault? {
        break;
      }
      CapturedPrefix(argv, Limit(maxArgs), i);
      var ret := ReadString(args, size, argv[i].text, done);
      if size + ret > FULL_MAX_ARGS_ARR {
        assert false;
        break;
      }
      done := done + [Cut(argv[i].text)];
      count := count + 1;
      size := size + ret;
      i := i + 1;
    }
    CapturedEnd(argv, Limit(maxArgs), i);
    assert c[..i] == c;
  }

  /** bpf_probe_read_user_str: the string, cut to its slot, and its terminator after what is there. */
  method ReadString(args: array<byte>, at: int, text: Bytes, ghost done: seq<Bytes>) returns (ret: int)
    requires at == |Laid(done)| && at + ARGSIZE <= args.Length && args[..at] == Laid(done)
    modifies args
    ensures ret == |Cut(text)| + 1 && at + ret == |Laid(done + [Cut(text)])|
    ensures args[..at + ret] == Laid(done + [Cut(text)])
  {
    var s := Cut(text);
    LaidSnoc(done, s);
    WriteString(args, at, s);
    ret := |s| + 1;
  }

  method WriteString(args: array<byte>, at: int, s: Bytes)
    requires 0 <= at && at + |s| < args.Length
    modifies args
    ensures args[..at + |s| + 1] == old(args[..at]) + s + [NUL]
  {
    for k := 0 to |s|
      invariant args[..at] == old(args[..at]) && args[at..at + k] == s[..k]
    {
      args[at + k] := s[k];
      assert args[at..at + k + 1] == args[at..at + k] + [s[k]];
      assert s[..k + 1] == s[..k] + [s[k]];
    }
    args[at + |s|] := NUL;
    assert s[..|s|] == s;
    assert args[..at + |s| + 1] == args[..at] + args[at..at + |s|] + [NUL];
  }

  // ---------- The mask on exit ----------

  /** Bitwise and. */
  function And(a: nat, b: nat): nat {
    if a == 0 || b == 0 then 0 else 2 * And(a / 2, b / 2) + if a % 2 == 1 && b % 2 == 1 then 1 else 0
  }

  lemma {:induction false} AndDouble(n: nat, m: nat)
    ensures And(n, 2 * m) == 2 * And(n / 2, m)
  {
    assert 2 * m / 2 == m && 2 * m % 2 == 0;
  }

  lemma {:induction false} AndOdd(n: nat, m: nat)
    ensures And(n, 2 * m + 1) == 2 * And(n / 2, m) + n % 2
  {
    assert (2 * m + 1) / 2 == m && (2 * m + 1) % 2 == 1;
  }

  lemma AndFifteen(n: nat, fifteen: nat)
    requires fifteen == 15
    ensures And(n, fifteen) == n % 16
  {
    var n1 := n / 2;
    var n2 := n1 / 2;
    var n3 := n2 / 2;
    AndOdd(n, 7);
    AndOdd(n1, 3);
    AndOdd(n2, 1);
    AndOdd(n3, 0);
  }

  /** The mask is four bits at the ninth place: it drops the size below a multiple of 512. */
  lemma MaskIs(n: nat, mask: nat)
    requires mask == FULL_MAX_ARGS_ARR
    ensures And(n, mask) == n / 512 % 16 * 512
  {
    var n3 := n / 2 / 2 / 2;
    var n6 := n3 / 2 / 2 / 2;
    var n9 := n6 / 2 / 2 / 2;
    AndDouble(n, 3840);
    AndDouble(n / 2, 1920);
    AndDouble(n / 2 / 2, 960);
    AndDouble(n3, 480);
    AndDouble(n3 / 2, 240);
    AndDouble(n3 / 2 / 2, 120);
    AndDouble(n6, 60);
    AndDouble(n6 / 2, 30);
    AndDouble(n6 / 2 / 2, 15);
    AndFifteen(n9, 15);
    assert n9 == n / 512;
  }

  /** The size as the exit handler leaves it. */
  function Masked(size: nat): nat {
    And(size, FULL_MAX_ARGS_ARR)
  }

  /** The last multiple of 512. */
  function Rounded(n: nat): (r: nat)
    ensures r % 512 == 0 && r <= n < r + 512 && (r == n <==> n % 512 == 0) && (r == 0 <==> n < 512)
  {
    n / 512 * 512
  }

  lemma FewBlocks(size: nat)
    requires size <= DEFAULT_MAXARGS * ARGSIZE
    ensures size / 512 % 16 * 512 == Rounded(size)
  {
    var q := size / 512;
    assert q <= 5 && q % 16 == q;
  }

  lemma MaskedIs(size: nat)
    ensures Masked(size) == size / 512 % 16 * 512
  {
    MaskIs(size, FULL_MAX_ARGS_ARR);
  }

  /** What is left of the size of a packed vector. */
  lemma MaskOfPacked(size: nat)
    requires size <= DEFAULT_MAXARGS * ARGSIZE
    ensures Masked(size) == Rounded(size)
  {
    MaskedIs(size);
    FewBlocks(size);
  }

  // ---------- The record ----------

  type Word = n: int | 0 <= n < 0x1_0000_0000

  function Put32(n: Word): (r: Bytes)
    ensures |r| == 4
  {
    var n1 := n / 256;
    var n2 := n1 / 256;
    [(n % 256) as char, (n1 % 256) as char, (n2 % 256) as char, (n2 / 256) as char]
  }

  function Get32(b: Bytes): Word
    requires |b| == 4
  {
    b[0] as int + 256 * (b[1] as int) + 0x1_0000 * (b[2] as int) + 0x100_0000 * (b[3] as int)
  }

  lemma GetPut32(n: Word)
    ensures Get32(Put32(n)) == n
  {
  }

  /** The first byte is the lowest. */
  lemma LittleEndian(n: Word)
    ensures var b := Put32(n);
            n == b[0] as int + 256 * (b[1] as int) + 65536 * (b[2] as int) + 16777216 * (b[3] as int)
  {
  }

  function Signed(n: Word): (r: int)
    ensures -0x8000_0000 <= r < 0x8000_0000 && (r - n) % 0x1_0000_0000 == 0
  {
    if n < 0x8000_0000 then n else n - 0x1_0000_0000
  }

  datatype Header = Header(pid: Word, ppid: Word, uid: Word, retval: Word, argsCount: Word, argsSize: Word, comm: Bytes)

  function HeaderBytes(h: Header): Bytes {
    Put32(h.pid) + Put32(h.ppid) + Put32(h.uid) + Put32(h.retval) + Put32(h.argsCount) + Put32(h.argsSize) + h.comm
  }

  function HeaderOf(data: Bytes): Header
    requires |data| >= HEADER
  {
    Header(Get32(data[0..4]), Get32(data[4..8]), Get32(data[8..12]), Get32(data[12..16]), Get32(data[16..20]),
           Get32(data[20..24]), data[24..HEADER])
  }

  lemma HeaderRoundTrip(h: Header, rest: Bytes)
    requires |h.comm| == 16
    ensures |HeaderBytes(h)| == 40 && HeaderOf(HeaderBytes(h) + rest) == h
    ensures (HeaderBytes(h) + rest)[40..] == rest
    ensures var d := HeaderBytes(h);
            && d[..4] == Put32(h.pid) && d[4..8] == Put32(h.ppid) && d[8..12] == Put32(h.uid)
            && d[12..16] == Put32(h.retval) && d[16..20] == Put32(h.argsCount) && d[20..24] == Put32(h.argsSize)
            && d[24..] == h.comm
  {
    var d := HeaderBytes(h) + rest;
    GetPut32(h.pid);
    GetPut32(h.ppid);
    GetPut32(h.uid);
    GetPut32(h.retval);
    GetPut32(h.argsCount);
    GetPut32(h.argsSize);
    assert d[0..4] == Put32(h.pid) && d[4..8] == Put32(h.ppid) && d[8..12] == Put32(h.uid);
    assert d[12..16] == Put32(h.retval) && d[16..20] == Put32(h.argsCount) && d[20..24] == Put32(h.argsSize);
    assert d[24..HEADER] == h.comm;
  }

  /** The record submitted on exit; `stale` is what the reserved space held. */
  function Submitted(h: Header, args: Bytes, stale: Bytes): Bytes
    requires |args| == |stale| == FULL_MAX_ARGS_ARR && h.argsSize <= DEFAULT_MAXARGS * ARGSIZE
  {
    MaskOfPacked(h.argsSize);
    var m := Masked(h.argsSize);
    HeaderBytes(h.(argsSize := m)) + (args[..m] + stale[m..])
  }

  // ---------- Taking the arguments apart ----------

  /** The terminated non-empty strings, and the bytes after the last terminator. */
  datatype Scan = Scan(done: seq<Bytes>, current: Bytes)

  function Fed(s: Scan, b: byte): Scan {
    if b != NUL then Scan(s.done, s.current + [b])
    else if s.current != [] then Scan(s.done + [s.current], [])
    else s
  }

  function Scanned(d: Bytes): Scan {
    if d == [] then Scan([], []) else Fed(Scanned(d[..|d| - 1]), d[|d| - 1])
  }

  function FirstOf<T>(s: seq<T>, n: nat): seq<T> {
    if |s| <= n then s else s[..n]
  }

  datatype Outcome = TooSmall | NegativeCount | SizeMismatch | Parsed(header: Header, args: seq<Bytes>)

  function Parse(data: Bytes): Outcome {
    if |data| < HEADER then TooSmall
    else
      var h := HeaderOf(data);
      if Signed(h.argsCount) < 0 then NegativeCount
      else if h.argsSize > |data| - HEADER then SizeMismatch
      else Parsed(h, FirstOf(Scanned(data[HEADER..][..h.argsSize]).done, Signed(h.argsCount)))
  }

  lemma {:induction false} ScanGrows(d: Bytes, i: nat)
    requires i <= |d|
    ensures Scanned(d[..i]).done <= Scanned(d).done
  {
    if i < |d| {
      var f := d[..|d| - 1];
      ScanGrows(f, i);
      assert f[..i] == d[..i];
    } else {
      assert d[..i] == d;
    }
  }

  // ---------- The scan is a split at the terminators ----------

  /** A byte put after the last part, or a separator that starts a new one. */
  function After(p: seq<Bytes>, b: byte, sep: byte): seq<Bytes>
    requires p != []
  {
    if b == sep then p + [[]] else p[..|p| - 1] + [p[|p| - 1] + [b]]
  }

  /** A byte put before the first part, or a separator that ends an empty one. */
  function Before(a: byte, p: seq<Bytes>, sep: byte): seq<Bytes>
    requires p != []
  {
    if a == sep then [[]] + p else [[a] + p[0]] + p[1..]
  }

  lemma BeforeAfter(a: byte, p: seq<Bytes>, b: byte, sep: byte)
    requires p != []
    ensures Before(a, After(p, b, sep), sep) == After(Before(a, p, sep), b, sep)
  {
    if a != sep && b != sep && |p| == 1 {
      assert [a] + (p[0] + [b]) == [a] + p[0] + [b];
    }
  }

  lemma {:induction false} SplitSnoc(d: Bytes, b: byte, sep: byte)
    ensures Split(d + [b], sep) == After(Split(d, sep), b, sep)
  {
    if d == [] {
      assert d + [b] == [b] && [b][1..] == [] && [b] + [] == [] + [b];
      assert Split([], sep) == [[]];
    } else {
      SplitSnoc(d[1..], b, sep);
      assert (d + [b])[1..] == d[1..] + [b];
      BeforeAfter(d[0], Split(d[1..], sep), b, sep);
    }
  }

  /** The scan finds the non-empty parts between terminators, and holds what follows the last one. */
  lemma {:induction false} ScanIsSplit(d: Bytes)
    ensures var p := Split(d, NUL); Scanned(d) == Scan(NonEmpty(p[..|p| - 1]), p[|p| - 1])
  {
    if d != [] {
      var f, b := d[..|d| - 1], d[|d| - 1];
      ScanIsSplit(f);
      SplitSnoc(f, b, NUL);
      assert d == f + [b];
      var p, q := Split(f, NUL), Split(d, NUL);
      if b == NUL {
        assert q[..|q| - 1] == p && p[..|p| - 1] + [p[|p| - 1]] == p;
      } else {
        assert q[..|q| - 1] == p[..|p| - 1];
      }
    }
  }

  lemma {:induction false} NonEmptyExact(args: seq<Bytes>, s: Bytes)
    ensures multiset(NonEmpty(args))[s] == if s == [] then 0 else multiset(args)[s]
  {
    if args != [] {
      var f, last := args[..|args| - 1], args[|args| - 1];
      NonEmptyExact(f, s);
      assert args == f + [last];
      assert multiset(args) == multiset(f) + multiset{last};
      assert last != [] ==> multiset(NonEmpty(args)) == multiset(NonEmpty(f)) + multiset{last};
    }
  }

  /** `ParseEvent`; a negative count stops the process. */
  method ParseEvent(data: Bytes) returns (r: Outcome)
    ensures r == Parse(data)
    ensures r.TooSmall? <==> |data| < 40
    ensures r.NegativeCount? <==> |data| >= 40 && Signed(Get32(data[16..20])) < 0
    ensures r.SizeMismatch? <==>
            |data| >= 40 && Signed(Get32(data[16..20])) >= 0 && Get32(data[20..24]) > |data| - 40
  {
    if |data| < HEADER {
      return TooSmall;
    }
    var h := HeaderOf(data);
    var count := Signed(h.argsCount);
    if count < 0 {
      return NegativeCount;
    }
    var argsData := data[HEADER..];
    if h.argsSize > |argsData| {
      return SizeMismatch;
    }
    ghost var d := argsData[..h.argsSize];
    var args, current := [], [];
    var i := 0;
    while i < h.argsSize && |args| < count
      invariant 0 <= i <= h.argsSize && |args| <= count && Scan(args, current) == Scanned(d[..i])
    {
      assert d[..i + 1][..i] == d[..i];
      if argsData[i] == NUL {
        if |current| > 0 {
          args, current := args + [current], [];
        }
      } else {
        current := current + [argsData[i]];
      }
      i := i + 1;
    }
    ScanGrows(d, i);
    assert i == h.argsSize ==> d[..i] == d;
    r := Parsed(h, args);
  }

  // ---------- What arrives ----------

  function NonEmpty(args: seq<Bytes>): seq<Bytes> {
    if args == [] then []
    else NonEmpty(args[..|args| - 1]) + if args[|args| - 1] == [] then [] else [args[|args| - 1]]
  }

  /** How many of the strings end within the first `m` bytes. */
  function Whole(args: seq<Bytes>, m: nat): (k: nat)
    ensures k <= |args| && |Laid(args[..k])| <= m
  {
    if |Laid(args)| <= m then (assert args[..|args|] == args; |args|)
    else
      var f := args[..|args| - 1];
      assert f[..Whole(f, m)] == args[..Whole(f, m)];
      Whole(f, m)
  }

  lemma ScanSnoc(d: Bytes, b: byte)
    ensures Scanned(d + [b]) == Fed(Scanned(d), b)
  {
    assert (d + [b])[..|d|] == d;
  }

  lemma SnocInside(d: Bytes, s: Bytes)
    requires s != []
    ensures d + s == d + s[..|s| - 1] + [s[|s| - 1]]
  {
  }

  lemma {:induction false} ScanText(d: Bytes, s: Bytes)
    requires NulFree(s)
    ensures Scanned(d + s) == Scan(Scanned(d).done, Scanned(d).current + s)
  {
    if s == [] {
      assert d + s == d;
      assert Scanned(d).current + s == Scanned(d).current;
    } else {
      var f, b := s[..|s| - 1], s[|s| - 1];
      ScanText(d, f);
      ScanSnoc(d + f, b);
      SnocInside(d, s);
      SnocInside(Scanned(d).current, s);
    }
  }

  lemma ScanArgument(d: Bytes, s: Bytes)
    requires NulFree(s) && Scanned(d).current == []
    ensures Scanned(d + s + [NUL]) == Scan(Scanned(d).done + (if s == [] then [] else [s]), [])
  {
    ScanText(d, s);
    assert [] + s == s;
    ScanSnoc(d + s, NUL);
  }

  lemma {:induction false} ScanLaid(args: seq<Bytes>)
    requires forall i :: 0 <= i < |args| ==> NulFree(args[i])
    ensures Scanned(Laid(args)) == Scan(NonEmpty(args), [])
  {
    if args != [] {
      var f, s := args[..|args| - 1], args[|args| - 1];
      ScanLaid(f);
      ScanArgument(Laid(f), s);
    }
  }

  /** The first `m` bytes are the whole strings and a piece of the next without its terminator. */
  lemma {:induction false} LaidCut(args: seq<Bytes>, m: nat) returns (p: Bytes)
    requires m <= |Laid(args)| && forall i :: 0 <= i < |args| ==> NulFree(args[i])
    ensures NulFree(p) && Laid(args)[..m] == Laid(args[..Whole(args, m)]) + p
  {
    if m == |Laid(args)| {
      p := [];
      assert args[..|args|] == args;
    } else {
      var f, s := args[..|args| - 1], args[|args| - 1];
      var k := |Laid(f)|;
      if m < k {
        p := LaidCut(f, m);
        assert f[..Whole(f, m)] == args[..Whole(f, m)];
        assert Laid(args)[..m] == Laid(f)[..m];
      } else {
        p := s[..m - k];
        assert f[..|f|] == args[..|f|] == f;
        assert Laid(args)[..m] == Laid(f) + p;
      }
    }
  }

  /** A prefix of the arguments gives a prefix of the non-empty ones, all of them if only empty ones follow. */
  lemma {:induction false} NothingAfter(args: seq<Bytes>, k: nat)
    requires k <= |args|
    ensures NonEmpty(args[..k]) <= NonEmpty(args)
    ensures |NonEmpty(args[..k])| == |NonEmpty(args)| <==> forall i :: k <= i < |args| ==> args[i] == []
  {
    if k == |args| {
      assert args[..k] == args;
    } else {
      var f, last := args[..|args| - 1], args[|args| - 1];
      NothingAfter(f, k);
      assert f[..k] == args[..k];
      if last == [] {
        assert NonEmpty(args) == NonEmpty(f);
        assert (forall i :: k <= i < |args| ==> args[i] == []) <==> forall i :: k <= i < |f| ==> f[i] == [];
      } else {
        assert |NonEmpty(args)| == |NonEmpty(f)| + 1;
        assert args[|args| - 1] != [];
      }
    }
  }

  lemma {:induction false} NonEmptyCount(args: seq<Bytes>)
    ensures |NonEmpty(args)| <= |args|
  {
    if args != [] {
      NonEmptyCount(args[..|args| - 1]);
    }
  }

  lemma {:induction false} LaidGrows(args: seq<Bytes>, i: nat, j: nat)
    requires i < j <= |args|
    ensures |Laid(args[..i])| < |Laid(args[..j])|
  {
    assert args[..j][..j - 1] == args[..j - 1];
    if i < j - 1 {
      LaidGrows(args, i, j - 1);
    }
  }

  /** Where the `i`-th string ends, its terminator included. */
  function End(args: seq<Bytes>, i: int): int
    requires 0 <= i < |args|
  {
    |Laid(args[..i + 1])|
  }

  /** `Whole` counts exactly the strings that end in time. */
  lemma {:induction false} WholeExact(args: seq<Bytes>, m: nat, i: nat)
    requires i < |args|
    ensures i < Whole(args, m) <==> End(args, i) <= m
  {
    if |Laid(args)| <= m {
      assert args[..|args|] == args;
      if i + 1 < |args| {
        LaidGrows(args, i + 1, |args|);
      }
    } else {
      var f := args[..|args| - 1];
      if i < |f| {
        WholeExact(f, m, i);
        assert f[..i + 1] == args[..i + 1];
      } else {
        assert args[..i + 1] == args;
      }
    }
  }

  lemma CapturedNulFree(argv: seq<Pointer>, limit: int)
    requires WellFormed(argv)
    ensures forall i :: 0 <= i < |Captured(argv, limit)| ==> NulFree(Captured(argv, limit)[i])
  {
  }

  /** The strings found in the first `m` bytes of the packed ones. */
  lemma ScanCut(c: seq<Bytes>, m: nat)
    requires m <= |Laid(c)| && forall i :: 0 <= i < |c| ==> NulFree(c[i])
    ensures Scanned(Laid(c)[..m]).done == NonEmpty(c[..Whole(c, m)])
  {
    var p := LaidCut(c, m);
    var w := c[..Whole(c, m)];
    ScanLaid(w);
    ScanText(Laid(w), p);
  }

  /** The non-empty ones of the captured arguments that end within the masked size. */
  function Arrived(c: seq<Bytes>): seq<Bytes> {
    NonEmpty(c[..Whole(c, Rounded(|Laid(c)|))])
  }

  /** `args` and the header are what packing `c` leaves. */
  predicate Holds(c: seq<Bytes>, h: Header, args: Bytes) {
    && |args| == FULL_MAX_ARGS_ARR && |h.comm| == 16 && |c| <= DEFAULT_MAXARGS
    && h.argsCount == |c| && h.argsSize == |Laid(c)| <= DEFAULT_MAXARGS * ARGSIZE && args[..h.argsSize] == Laid(c)
  }

  lemma SubmittedParts(c: seq<Bytes>, h: Header, args: Bytes, stale: Bytes)
    requires Holds(c, h, args) && |stale| == FULL_MAX_ARGS_ARR
    ensures var d, m := Submitted(h, args, stale), Rounded(|Laid(c)|);
            && m <= |Laid(c)| && |d| == HEADER + FULL_MAX_ARGS_ARR && HeaderOf(d) == h.(argsSize := m)
            && d[HEADER..][..m] == Laid(c)[..m]
  {
    MaskOfPacked(h.argsSize);
    var m := Masked(h.argsSize);
    HeaderRoundTrip(h.(argsSize := m), args[..m] + stale[m..]);
    assert (args[..m] + stale[m..])[..m] == args[..m] == args[..h.argsSize][..m];
  }

  /**
   From the argument vector to the parsed event: the parser returns the non-empty
   captured arguments that end within the masked size, whatever the reserved space held.
   */
  lemma ParseOfSubmitted(argv: seq<Pointer>, maxArgs: int, h: Header, args: Bytes, stale: Bytes)
    requires WellFormed(argv) && Holds(Captured(argv, Limit(maxArgs)), h, args) && |stale| == FULL_MAX_ARGS_ARR
    ensures var c := Captured(argv, Limit(maxArgs));
            var r := Parse(Submitted(h, args, stale));
            && r.Parsed? && r.header == h.(argsSize := Rounded(|Laid(c)|))
            && r.args == Arrived(c) <= NonEmpty(c)
  {
    var c := Captured(argv, Limit(maxArgs));
    var m := Rounded(|Laid(c)|);
    var w := c[..Whole(c, m)];
    SubmittedParts(c, h, args, stale);
    CapturedNulFree(argv, Limit(maxArgs));
    ScanCut(c, m);
    NonEmptyCount(w);
    NothingAfter(c, Whole(c, m));
  }

  /** Nothing is lost if and only if every non-empty argument ends before the last multiple of 512. */
  lemma AllArgumentsIff(c: seq<Bytes>)
    ensures Arrived(c) == NonEmpty(c) <==>
            forall i :: 0 <= i < |c| && c[i] != [] ==> End(c, i) <= Rounded(|Laid(c)|)
  {
    var m := Rounded(|Laid(c)|);
    NothingAfter(c, Whole(c, m));
    forall i | 0 <= i < |c| ensures i < Whole(c, m) <==> End(c, i) <= m {
      WholeExact(c, m, i);
    }
  }

  /** Few enough and short enough arguments all reach the parsed event if and only if each ends in time. */
  lemma UserArgumentsIff(argv: seq<Pointer>, maxArgs: int)
    requires AllTexts(argv) && |argv| <= 20 && (|argv| <= maxArgs || argv == [])
    requires forall i :: 0 <= i < |argv| ==> |argv[i].text| < 128
    ensures var t := Texts(argv);
            Arrived(Captured(argv, Limit(maxArgs))) == NonEmpty(t) <==>
            forall i :: 0 <= i < |t| && t[i] != [] ==> End(t, i) <= |Laid(t)| / 512 * 512
  {
    CapturedWholeIff(argv, maxArgs);
    AllArgumentsIff(Texts(argv));
  }

  lemma WholeEnds(c: seq<Bytes>)
    ensures c[..Whole(c, |Laid(c)|)] == c && c[..Whole(c, 0)] == []
  {
  }

  /** So if the mask leaves the size alone; and if the size is under 512 no argument arrives. */
  lemma AllOrNothing(c: seq<Bytes>)
    ensures Rounded(|Laid(c)|) == |Laid(c)| ==> Arrived(c) == NonEmpty(c)
    ensures |Laid(c)| < 512 ==> Arrived(c) == []
  {
    WholeEnds(c);
  }

  /** An execve from entry to parsed event. */
  method Observe(argv: seq<Pointer>, maxArgs: int, args: array<byte>, stale: Bytes, base: Header) returns (r: Outcome)
    requires WellFormed(argv) && args.Length == |stale| == FULL_MAX_ARGS_ARR && |base.comm| == 16
    modifies args
    ensures var c := Captured(argv, Limit(maxArgs));
            && Keeps(argv, maxArgs, c) && |Laid(c)| <= 2560 && r.Parsed? && r.args == Arrived(c)
            && r.header == base.(argsCount := |c|, argsSize := Rounded(|Laid(c)|))
  {
    var count, size := Pack(argv, maxArgs, args);
    var h := base.(argsCount := count, argsSize := size);
    ParseOfSubmitted(argv, maxArgs, h, args[..], stale);
    r := ParseEvent(Submitted(h, args[..], stale));
  }
}
