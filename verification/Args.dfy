/**
 The command line of a program: the shell splits it in place into words, and the kernel lays the
 words out on the new task's stack in the form its start code reads.
 */
module Args {
  import opened Bytes

  const SPACE: byte := 0x20
  const CMD_MAX: nat := 79
  const ARG_MAX: nat := 8

  // ---- Words of a command line ----------------------------------------------

  /** The pieces between single spaces, empty ones included. */
  function Split(s: seq<byte>): (r: seq<seq<byte>>)
    ensures |r| > 0
  {
    if s == [] then [[]]
    else
      var rest := Split(s[1..]);
      if s[0] == SPACE then [[]] + rest else [[s[0]] + rest[0]] + rest[1..]
  }

  function Join(pieces: seq<seq<byte>>): seq<byte>
  {
    if pieces == [] then []
    else if |pieces| == 1 then pieces[0]
    else pieces[0] + [0x20] + Join(pieces[1..])
  }

  predicate NoSpace(s: seq<byte>) { forall i | 0 <= i < |s| :: s[i] != 0x20 }

  function NonEmpty(pieces: seq<seq<byte>>): seq<seq<byte>>
  {
    if pieces == [] then []
    else (if pieces[0] == [] then [] else [pieces[0]]) + NonEmpty(pieces[1..])
  }

  /** The words of a command line: its nonempty space-separated pieces. */
  function Tokens(s: seq<byte>): seq<seq<byte>> { NonEmpty(Split(s)) }

  function First8(ws: seq<seq<byte>>): (r: seq<seq<byte>>)
    ensures |r| <= 8
  {
    if |ws| > 8 then ws[..8] else ws
  }

  /** Splitting is the inverse of joining by spaces: the pieces hold no space and join to the line. */
  lemma {:induction false} SplitJoin(s: seq<byte>)
    ensures Join(Split(s)) == s && forall i | 0 <= i < |Split(s)| :: NoSpace(Split(s)[i])
  {
    if s != [] {
      SplitJoin(s[1..]);
      var rest := Split(s[1..]);
      assert s == [s[0]] + s[1..];
      if s[0] == SPACE {
        assert Split(s)[1..] == rest;
      } else if |rest| > 1 {
        assert Split(s)[1..] == rest[1..];
      }
    }
  }

  lemma TokensSpace(s: seq<byte>)
    requires s != [] && s[0] == SPACE
    ensures Tokens(s) == Tokens(s[1..])
  {
    assert Split(s)[1..] == Split(s[1..]);
  }

  /** What follows a word of k characters. */
  function After(s: seq<byte>, k: nat): seq<byte>
    requires k <= |s|
  {
    if k == |s| then [] else s[k + 1..]
  }

  lemma {:induction false} SplitWord(s: seq<byte>, k: nat)
    requires k <= |s| && NoSpace(s[..k]) && (k == |s| || s[k] == SPACE)
    ensures Split(s) == [s[..k]] + (if k == |s| then [] else Split(s[k + 1..]))
    decreases k
  {
    if k > 0 {
      var t := s[1..];
      assert s[..k][0] == s[0];
      assert t[..k - 1] == s[..k][1..];
      SplitWord(t, k - 1);
      assert s[..k] == [s[0]] + t[..k - 1];
      if k < |s| { assert t[k..] == s[k + 1..]; }
    }
  }

  lemma TokensWord(s: seq<byte>, k: nat)
    requires 0 < k <= |s| && NoSpace(s[..k]) && (k == |s| || s[k] == SPACE)
    ensures Tokens(s) == [s[..k]] + Tokens(After(s, k))
  {
    SplitWord(s, k);
    if k == |s| {
      assert NonEmpty([s[..k]]) == [s[..k]] + NonEmpty([]);
      assert Split([]) == [[]] && NonEmpty([[]]) == NonEmpty([]);
    } else {
      assert Split(s)[1..] == Split(s[k + 1..]);
    }
  }

  lemma TokensSkip(s: seq<byte>, i: nat)
    requires i < |s| && s[i] == SPACE
    ensures Tokens(s[i..]) == Tokens(s[i + 1..])
  {
    TokensSpace(s[i..]);
    assert s[i..][1..] == s[i + 1..];
  }

  lemma TokensTake(s: seq<byte>, start: nat, i: nat)
    requires start < i <= |s| && (forall j | start <= j < i :: s[j] != SPACE) && (i == |s| || s[i] == SPACE)
    ensures Tokens(s[start..]) == [s[start..i]] + Tokens(if i == |s| then s[i..] else s[i + 1..])
  {
    var t := s[start..];
    assert t[..i - start] == s[start..i];
    TokensWord(t, i - start);
    assert i < |s| ==> t[i - start + 1..] == s[i + 1..];
  }

  // ---- The shell's tokenizer ------------------------------------------------

  /** Word k of the line stands as a C string in the buffer, and ends before position hi. */
  ghost predicate WordsAt(buf: seq<byte>, av: seq<nat>, words: seq<seq<byte>>, hi: nat)
  {
    |av| == |words| && forall k | 0 <= k < |words| :: IsCString(buf, av[k], words[k]) && av[k] + |words[k]| < hi
  }

  lemma WordsFrame(buf: seq<byte>, buf': seq<byte>, i: nat, av: seq<nat>, words: seq<seq<byte>>)
    requires WordsAt(buf, av, words, i) && SameOutside(buf, buf', i, i + 1)
    ensures WordsAt(buf', av, words, i)
  {
    forall k | 0 <= k < |words| ensures IsCString(buf', av[k], words[k]) {
      CStringFrame(buf, buf', i, i + 1, av[k], words[k]);
    }
  }

  /** From position i on the buffer still holds the line, with its terminator. */
  ghost predicate Unsplit(buf: seq<byte>, args: seq<byte>, i: nat)
  {
    |args| < |buf| && buf[|args|] == 0 && forall j | i <= j < |args| :: buf[j] == args[j]
  }

  method CopyLine(args: seq<byte>) returns (buf: array<byte>)
    requires |args| <= CMD_MAX
    ensures fresh(buf) && buf.Length == CMD_MAX + 1 && Unsplit(buf[..], args, 0)
  {
    buf := new byte[CMD_MAX + 1];
    for k := 0 to |args|
      invariant forall j | 0 <= j < k :: buf[j] == args[j]
    {
      buf[k] := args[k];
    }
    buf[|args|] := 0;
  }

  /** The first position from i on that holds no space. */
  method SkipSpaces(buf: array<byte>, ghost args: seq<byte>, i: nat) returns (j: nat)
    requires i <= |args| && Unsplit(buf[..], args, i)
    ensures i <= j <= |args| && buf[j] != SPACE && Tokens(args[j..]) == Tokens(args[i..])
  {
    hide Tokens;
    j := i;
    while buf[j] == SPACE
      invariant i <= j <= |args| && Tokens(args[j..]) == Tokens(args[i..])
      decreases |args| - j
    {
      TokensSkip(args, j);
      j := j + 1;
    }
  }

  /** The end of the word that starts at i. */
  method WordEnd(buf: array<byte>, ghost args: seq<byte>, i: nat) returns (j: nat)
    requires i <= |args| && Unsplit(buf[..], args, i) && NulFree(args) && buf[i] != 0 && buf[i] != SPACE
    ensures i < j <= |args| && (j == |args| || args[j] == SPACE) && forall k | i <= k < j :: args[k] != SPACE
  {
    j := i;
    while buf[j] != 0 && buf[j] != SPACE
      invariant i <= j <= |args| && (j == i ==> buf[j] != 0 && buf[j] != SPACE)
      invariant forall k | i <= k < j :: args[k] != SPACE
      decreases |args| - j
    {
      j := j + 1;
    }
  }

  /** Ends the word that runs from start to i and steps over its terminator. */
  method Terminate(buf: array<byte>, ghost args: seq<byte>, ghost starts: seq<nat>, ghost words: seq<seq<byte>>, ghost start: nat, i: nat)
      returns (j: nat)
    requires start < i <= |args| && NulFree(args) && Unsplit(buf[..], args, start) && WordsAt(buf[..], starts, words, End(start, |args|))
    requires (i == |args| || args[i] == SPACE) && forall k | start <= k < i :: args[k] != SPACE
    modifies buf
    ensures i <= j <= |args| && Unsplit(buf[..], args, j)
    ensures WordsAt(buf[..], starts + [start], words + [args[start..i]], End(j, |args|))
    ensures Tokens(args[start..]) == [args[start..i]] + Tokens(args[j..])
  {
    hide Tokens, IsCString, WordsAt;
    TokensTake(args, start, i);
    j := i;
    if buf[i] != 0 {
      ghost var before := buf[..];
      buf[i] := 0;
      assert buf[..] == before[i := 0];
      CutWord(before, args, starts, words, start, i);
      j := i + 1;
      WordsLater(buf[..], starts + [start], words + [args[start..i]], j, End(j, |args|));
    } else {
      LastWord(buf[..], args, starts, words, start);
    }
  }

  /** The command's argument text copied into a buffer and split there by overwriting spaces with NULs. */
  method Tokenize(args: seq<byte>) returns (buf: array<byte>, av: array<nat>, ac: nat, ghost words: seq<seq<byte>>)
    requires |args| <= CMD_MAX && NulFree(args)
    ensures fresh(buf) && fresh(av) && buf.Length == CMD_MAX + 1 && av.Length == ARG_MAX
    ensures words == First8(Tokens(args)) && ac == |words|
    ensures WordsAt(buf[..], av[..ac], words, |args| + 1)
  {
    hide Tokens, IsCString, WordsAt;
    buf := CopyLine(args);
    av := new nat[ARG_MAX];
    var n := |args|;
    ac := 0;
    words := [];
    var i := 0;
    NoWordsYet(buf[..], av[..0], End(i, n));
    assert args[0..] == args;
    while buf[i] != 0 && ac < 8
      invariant i <= n && ac == |words| <= 8
      invariant Unsplit(buf[..], args, i)
      invariant Tokens(args) == words + Tokens(args[i..])
      invariant WordsAt(buf[..], av[..ac], words, End(i, n))
      decreases n - i
    {
      ghost var from := i;
      i := SkipSpaces(buf, args, i);
      WordsLater(buf[..], av[..ac], words, End(from, n), End(i, n));
      if buf[i] == 0 { break; }
      ghost var starts := av[..ac];
      av[ac] := i;
      assert av[..ac] == starts && av[..ac + 1] == starts + [i];
      ghost var start := i;
      i := WordEnd(buf, args, i);
      ghost var w := args[start..i];
      i := Terminate(buf, args, starts, words, start, i);
      assert words + ([w] + Tokens(args[i..])) == (words + [w]) + Tokens(args[i..]);
      words := words + [w];
      ac := ac + 1;
    }
    NoTokens();
    if i == n { assert args[i..] == []; }
    assert words + [] == words;
    WordsLater(buf[..], av[..ac], words, End(i, n), n + 1);
  }

  function End(i: nat, n: nat): nat { if i < n then i else n + 1 }

  lemma NoWordsYet(buf: seq<byte>, av: seq<nat>, hi: nat)
    requires av == []
    ensures WordsAt(buf, av, [], hi)
  {
  }

  lemma WordsLater(buf: seq<byte>, av: seq<nat>, words: seq<seq<byte>>, hi: nat, hi': nat)
    requires WordsAt(buf, av, words, hi) && hi <= hi'
    ensures WordsAt(buf, av, words, hi')
  {
  }

  lemma AddWord(buf: seq<byte>, av: seq<nat>, words: seq<seq<byte>>, start: nat, w: seq<byte>, hi: nat)
    requires WordsAt(buf, av, words, hi) && IsCString(buf, start, w) && start + |w| < hi
    ensures WordsAt(buf, av + [start], words + [w], hi)
  {
    hide IsCString;
  }

  /** Overwriting the space after a word makes the word a C string and leaves the others alone. */
  lemma CutWord(buf: seq<byte>, args: seq<byte>, av: seq<nat>, words: seq<seq<byte>>, start: nat, e: nat)
    requires start <= e < |args| && NulFree(args)
    requires WordsAt(buf, av, words, start) && Unsplit(buf, args, start)
    ensures WordsAt(buf[e := 0], av + [start], words + [args[start..e]], e + 1)
    ensures Unsplit(buf[e := 0], args, e + 1)
  {
    hide WordsAt, IsCString;
    WordsLater(buf, av, words, start, e);
    WordsFrame(buf, buf[e := 0], e, av, words);
    WordsLater(buf[e := 0], av, words, e, e + 1);
    NewWord(buf[e := 0], args, start, e);
    AddWord(buf[e := 0], av, words, start, args[start..e], e + 1);
  }

  lemma LastWord(buf: seq<byte>, args: seq<byte>, av: seq<nat>, words: seq<seq<byte>>, start: nat)
    requires start < |args| && NulFree(args)
    requires WordsAt(buf, av, words, start) && Unsplit(buf, args, start)
    ensures WordsAt(buf, av + [start], words + [args[start..|args|]], |args| + 1)
  {
    hide WordsAt, IsCString;
    WordsLater(buf, av, words, start, |args| + 1);
    NewWord(buf, args, start, |args|);
    AddWord(buf, av, words, start, args[start..|args|], |args| + 1);
  }

  lemma NewWord(buf: seq<byte>, args: seq<byte>, start: nat, e: nat)
    requires start <= e <= |args| && e < |buf| && NulFree(args) && buf[e] == 0
    requires forall j | start <= j < e :: buf[j] == args[j]
    ensures IsCString(buf, start, args[start..e])
  {
    var w := args[start..e];
    forall k | 0 <= k < |w| ensures w[k] != 0 && buf[start + k] == w[k] {
      assert args[start + k] == w[k];
    }
  }

  lemma NoTokens()
    ensures Tokens([]) == []
  {
    assert Split([]) == [[]];
  }

  // ---- The stack image ------------------------------------------------------

  /** Bytes the strings from word i on take, terminators included. */
  function Room(words: seq<seq<byte>>, i: nat): (r: nat)
    requires i <= |words|
    decreases |words| - i
  {
    if i == |words| then 0 else |words[i]| + 1 + Room(words, i + 1)
  }

  /** What the start code of a program reads at its entry stack pointer. */
  ghost predicate AbiStack(m: seq<byte>, rsp: nat, words: seq<seq<byte>>)
  {
    && rsp + 8 * (|words| + 2) <= |m|
    && Get64(m, rsp) == |words|
    && (forall i {:trigger words[i]} | 0 <= i < |words| :: IsCString(m, Get64(m, rsp + 8 + 8 * i), words[i]))
    && Get64(m, rsp + 8 + 8 * |words|) == 0
  }

  /** The words are determined by the stack image: reading it gives them back. */
  lemma AbiReads(m: seq<byte>, rsp: nat, words: seq<seq<byte>>, words': seq<seq<byte>>)
    requires AbiStack(m, rsp, words) && AbiStack(m, rsp, words')
    ensures words == words'
  {
    hide IsCString;
    forall i | 0 <= i < |words| ensures words[i] == words'[i] {
      CStringUnique(m, Get64(m, rsp + 8 + 8 * i), words[i], words'[i]);
    }
  }

  /** Where the block of count, pointers and terminator starts. */
  function EntryRsp(stktop: nat, words: seq<seq<byte>>): int
  {
    var p := stktop - Room(words, 0);
    p - p % 16 - 8 * (|words| + 2)
  }

  /** The block is aligned as the source aligns it: 16 bytes at its end, 8 at its start. */
  lemma EntryAligned(stktop: nat, words: seq<seq<byte>>)
    ensures var rsp := EntryRsp(stktop, words);
            && (rsp + 8 * (|words| + 2)) % 16 == 0 && rsp % 8 == 0
            && stktop - Room(words, 0) - 16 < rsp + 8 * (|words| + 2) <= stktop - Room(words, 0)
  {
    var p := stktop - Room(words, 0);
    var q := p / 16;
    assert p - p % 16 == 16 * q;
    assert EntryRsp(stktop, words) == 8 * (2 * q - |words| - 2);
    MultipleOf8(2 * q - |words| - 2);
  }

  lemma MultipleOf8(k: int)
    ensures 8 * k % 8 == 0
  {
  }

  lemma EntryBelowTop(stktop: nat, words: seq<seq<byte>>)
    ensures EntryRsp(stktop, words) < stktop
  {
  }

  /** Strings from word i on are in place, one directly below the other up to the top. */
  ghost predicate StringsAt(m: seq<byte>, stktop: nat, words: seq<seq<byte>>, ptrs: seq<nat>, i: nat)
  {
    && i <= |words| == |ptrs|
    && forall k {:trigger words[k]} | i <= k < |words| ::
         Room(words, k) <= stktop && ptrs[k] == stktop - Room(words, k) && IsCString(m, ptrs[k], words[k])
  }

  /** The pointer table at position p holds the first i pointers. */
  ghost predicate TableAt(m: seq<byte>, p: nat, ptrs: seq<nat>, i: nat)
  {
    i <= |ptrs| && p + 8 * i <= |m| && forall k {:trigger ptrs[k]} | 0 <= k < i :: Get64(m, p + 8 * k) == ptrs[k]
  }

  lemma {:induction false} RoomShrinks(words: seq<seq<byte>>, i: nat, k: nat)
    requires i <= k <= |words|
    ensures Room(words, k) <= Room(words, i)
    decreases k - i
  {
    if i < k { RoomShrinks(words, i + 1, k); }
  }

  lemma StringsFrame(m: seq<byte>, m': seq<byte>, hi: nat, stktop: nat, words: seq<seq<byte>>, ptrs: seq<nat>, i: nat)
    requires StringsAt(m, stktop, words, ptrs, i) && SameOutside(m, m', 0, hi)
    requires Room(words, i) <= stktop && hi <= stktop - Room(words, i)
    ensures StringsAt(m', stktop, words, ptrs, i)
  {
    hide IsCString;
    forall k | i <= k < |words| ensures IsCString(m', ptrs[k], words[k]) {
      RoomShrinks(words, i, k);
      CStringFrame(m, m', 0, hi, ptrs[k], words[k]);
    }
  }

  lemma TableStep(m: seq<byte>, p: nat, ptrs: seq<nat>, i: nat)
    requires TableAt(m, p, ptrs, i) && i < |ptrs| && ptrs[i] < TWO64 && p + 8 * i + 8 <= |m|
    ensures TableAt(Put(m, p + 8 * i, ToLE(ptrs[i], 8)), p, ptrs, i + 1)
  {
    hide ToLE, FromLE, Put;
    var m' := Put(m, p + 8 * i, ToLE(ptrs[i], 8));
    Get64Put(m, p + 8 * i, ptrs[i]);
    forall k | 0 <= k < i ensures Get64(m', p + 8 * k) == ptrs[k] {
      Get64Frame(m, m', p + 8 * i, p + 8 * i + 8, p + 8 * k);
    }
  }

  lemma StringStep(m: seq<byte>, stktop: nat, words: seq<seq<byte>>, ptrs: seq<nat>, i: nat, p: nat)
    requires i < |words| && StringsAt(m, stktop, words, ptrs, i + 1)
    requires Room(words, i) <= stktop <= |m| && p == stktop - Room(words, i) && NulFree(words[i])
    ensures StringsAt(Put(m, p, words[i] + [0]), stktop, words, ptrs[i := p], i)
  {
    hide IsCString;
    var w, m' := words[i], Put(m, p, words[i] + [0]);
    StringPut(m, p, w);
    forall k | i < k < |words| ensures IsCString(m', ptrs[k], words[k]) {
      RoomShrinks(words, i + 1, k);
      CStringFrame(m, m', p, p + |w| + 1, ptrs[k], words[k]);
    }
  }

  lemma StringPut(m: seq<byte>, p: nat, w: seq<byte>)
    requires p + |w| + 1 <= |m| && NulFree(w)
    ensures IsCString(Put(m, p, w + [0]), p, w)
  {
    var s, m' := w + [0], Put(m, p, w + [0]);
    forall i | 0 <= i < |s| ensures m'[p + i] == s[i] {
      assert m'[p..p + |s|][i] == s[i];
    }
    assert s[|w|] == 0 && forall i | 0 <= i < |w| :: s[i] == w[i];
  }

  lemma TextOfString(src: seq<byte>, p: nat, w: seq<byte>)
    requires IsCString(src, p, w)
    ensures p + |w| + 1 <= |src| && src[p..p + |w| + 1] == w + [0] && NulFree(w)
  {
  }

  /** The length of a C string, found by walking to its NUL. */
  method CLength(src: seq<byte>, p: nat, ghost w: seq<byte>) returns (len: nat)
    requires IsCString(src, p, w)
    ensures len == |w|
  {
    len := 0;
    while src[p + len] != 0
      invariant len <= |w|
      invariant src[p + len] == if len < |w| then w[len] else 0
      decreases |w| - len
    {
      len := len + 1;
    }
  }

  /** How many arguments are placed. */
  function Count(argv: Option<seq<nat>>, argc: int): nat
  {
    if argv == None || argc <= 0 then 0 else if argc > ARG_MAX then ARG_MAX else argc
  }

  /** The strings, downwards from the top of the stack, last one first. */
  method PushStrings(ram: array<byte>, stktop: nat, src: seq<byte>, argv: seq<nat>, n: nat, ghost words: seq<seq<byte>>)
      returns (ptrs: array<nat>, p: nat)
    requires |words| == n <= |argv| && n <= ARG_MAX && Room(words, 0) <= stktop <= ram.Length
    requires forall i | 0 <= i < n :: IsCString(src, argv[i], words[i])
    modifies ram
    ensures fresh(ptrs) && ptrs.Length == ARG_MAX && StringsAt(ram[..], stktop, words, ptrs[..n], 0)
    ensures p == stktop - Room(words, 0) && SameOutside(old(ram[..]), ram[..], p, stktop)
  {
    hide IsCString, StringsAt;
    ptrs := new nat[ARG_MAX];
    p := stktop;
    NoStrings(ram[..], stktop, words, ptrs[..n]);
    var i: int := n - 1;
    while i >= 0
      invariant -1 <= i < n && p == stktop - Room(words, i + 1)
      invariant StringsAt(ram[..], stktop, words, ptrs[..n], i + 1)
      invariant SameOutside(old(ram[..]), ram[..], p, stktop)
    {
      ghost var m, before := ram[..], ptrs[..n];
      RoomShrinks(words, 0, i);
      var len := CLength(src, argv[i], words[i]);
      len := len + 1;
      TextOfString(src, argv[i], words[i]);
      p := p - len;
      Poke(ram, p, src[argv[i]..argv[i] + len]);
      ptrs[i] := p;
      assert ptrs[..n] == before[i := p];
      StringStep(m, stktop, words, before, i, p);
      SameOutsideWider(old(ram[..]), m, ram[..], p + len, p, stktop);
      i := i - 1;
    }
  }

  lemma NoStrings(m: seq<byte>, stktop: nat, words: seq<seq<byte>>, ptrs: seq<nat>)
    requires |ptrs| == |words|
    ensures StringsAt(m, stktop, words, ptrs, |words|)
  {
  }

  lemma SameOutsideWider(a: seq<byte>, b: seq<byte>, c: seq<byte>, mid: int, lo: int, hi: int)
    requires SameOutside(a, b, mid, hi) && SameOutside(b, c, lo, mid) && lo <= mid <= hi
    ensures SameOutside(a, c, lo, hi)
  {
  }

  /** The pointer table, from its first entry up, and its NULL. */
  method PushTable(ram: array<byte>, p: nat, ptrs: array<nat>, n: nat)
    requires n <= ptrs.Length && p + 8 * (n + 1) <= ram.Length && forall k | 0 <= k < n :: ptrs[k] < TWO64
    modifies ram
    ensures TableAt(ram[..], p, ptrs[..n], n) && Get64(ram[..], p + 8 * n) == 0
    ensures SameOutside(old(ram[..]), ram[..], p, p + 8 * (n + 1))
  {
    hide TableAt, Get64, ToLE;
    ghost var all := ptrs[..n];
    EmptyTable(ram[..], p, all);
    for i := 0 to n
      invariant ptrs[..n] == all
      invariant TableAt(ram[..], p, all, i) && SameOutside(old(ram[..]), ram[..], p, p + 8 * i)
    {
      TableStep(ram[..], p, all, i);
      Poke(ram, p + 8 * i, ToLE(ptrs[i], 8));
    }
    Get64Put(ram[..], p + 8 * n, 0);
    TableFrame(ram[..], Put(ram[..], p + 8 * n, ToLE(0, 8)), p + 8 * n, p + 8 * n + 8, p, all, n);
    Poke(ram, p + 8 * n, ToLE(0, 8));
  }

  lemma EmptyTable(m: seq<byte>, p: nat, ptrs: seq<nat>)
    requires p <= |m|
    ensures TableAt(m, p, ptrs, 0)
  {
  }

  lemma TableFrame(m: seq<byte>, m': seq<byte>, lo: nat, hi: nat, p: nat, ptrs: seq<nat>, i: nat)
    requires TableAt(m, p, ptrs, i) && SameOutside(m, m', lo, hi) && (p + 8 * i <= lo || hi <= p)
    ensures TableAt(m', p, ptrs, i)
  {
    hide Get64;
    forall k | 0 <= k < i ensures Get64(m', p + 8 * k) == ptrs[k] {
      Get64Frame(m, m', lo, hi, p + 8 * k);
    }
  }

  /** Strings, table and count of the words lie at their places: one above the other, inside [rsp, stktop). */
  ghost predicate Pieces(m: seq<byte>, rsp: nat, stktop: nat, words: seq<seq<byte>>)
  {
    && Room(words, 0) <= stktop && rsp + 8 * (|words| + 2) <= stktop - Room(words, 0) && stktop <= |m|
    && forall k {:trigger words[k]} | 0 <= k < |words| ::
         Room(words, k) <= stktop && Get64(m, rsp + 8 + 8 * k) == stktop - Room(words, k)
  }

  /** No two strings overlap, and none reaches past the top of the stack. */
  lemma PiecesDisjoint(m: seq<byte>, rsp: nat, stktop: nat, words: seq<seq<byte>>, j: nat, k: nat)
    requires Pieces(m, rsp, stktop, words) && j < k < |words|
    ensures var pj, pk := Get64(m, rsp + 8 + 8 * j), Get64(m, rsp + 8 + 8 * k);
            rsp + 8 * (|words| + 2) <= pj && pj + |words[j]| + 1 <= pk && pk + |words[k]| + 1 <= stktop
  {
    hide Get64;
    assert words[j] == words[j] && words[k] == words[k];
    RoomShrinks(words, 0, j);
    RoomShrinks(words, j + 1, k);
  }

  /** The initial stack of a task. The words are the C strings the arguments point to. */
  method BuildArgs(ram: array<byte>, stktop: nat, src: seq<byte>, argv: Option<seq<nat>>, argc: int, ghost words: seq<seq<byte>>)
      returns (rsp: nat)
    requires stktop <= ram.Length <= TWO64
    requires |words| == Count(argv, argc) && (argv.Some? ==> |words| <= |argv.value|)
    requires forall i | 0 <= i < |words| :: IsCString(src, argv.value[i], words[i])
    requires words != [] ==> EntryRsp(stktop, words) >= 0
    modifies ram
    ensures words == [] ==> rsp == stktop && ram[..] == old(ram[..])
    ensures words != [] ==> rsp == EntryRsp(stktop, words) && AbiStack(ram[..], rsp, words) && Pieces(ram[..], rsp, stktop, words)
    ensures words != [] ==> (rsp + 8 * (|words| + 2)) % 16 == 0 && rsp % 8 == 0
    ensures SameOutside(old(ram[..]), ram[..], rsp, stktop)
  {
    hide IsCString, StringsAt, TableAt, AbiStack, Pieces, Room, ToLE, Get64;
    if argv == None || argc <= 0 { return stktop; }
    var n := if argc > 8 then 8 else argc;
    var ptrs, p := PushStrings(ram, stktop, src, argv.value, n, words);
    ghost var m1 := ram[..];
    p := p - p % 16;
    p := p - 8 * (n + 1);
    PtrsFit(m1, stktop, words, ptrs[..n]);
    assert forall k | 0 <= k < n :: ptrs[k] == ptrs[..n][k];
    PushTable(ram, p, ptrs, n);
    ghost var m2 := ram[..];
    p := p - 8;
    Poke(ram, p, ToLE(n, 8));
    StackDone(m1, m2, stktop, words, ptrs[..n], p);
    EntryAligned(stktop, words);
    rsp := p;
  }

  lemma PtrsFit(m: seq<byte>, stktop: nat, words: seq<seq<byte>>, ptrs: seq<nat>)
    requires StringsAt(m, stktop, words, ptrs, 0) && stktop <= TWO64
    ensures forall k | 0 <= k < |ptrs| :: ptrs[k] < TWO64
  {
    forall k | 0 <= k < |ptrs| ensures ptrs[k] < TWO64 {
      assert words[k] == words[k];
    }
  }

  /** Strings, then table, then count: together they form the stack image. */
  lemma StackDone(m1: seq<byte>, m2: seq<byte>, stktop: nat, words: seq<seq<byte>>, ptrs: seq<nat>, p: nat)
    requires StringsAt(m1, stktop, words, ptrs, 0) && p == EntryRsp(stktop, words) && |words| < TWO64 && Room(words, 0) <= stktop <= |m1|
    requires SameOutside(m1, m2, p + 8, p + 8 * (|words| + 2)) && TableAt(m2, p + 8, ptrs, |words|)
    requires Get64(m2, p + 8 + 8 * |words|) == 0
    ensures var m3 := Put(m2, p, ToLE(|words|, 8));
            AbiStack(m3, p, words) && Pieces(m3, p, stktop, words)
  {
    hide Get64, ToLE, IsCString, Put, StringsAt, TableAt, AbiStack, Pieces;
    var n := |words|;
    var m3 := Put(m2, p, ToLE(n, 8));
    Get64Put(m2, p, n);
    TableFrame(m2, m3, p, p + 8, p + 8, ptrs, n);
    Get64Frame(m2, m3, p, p + 8, p + 8 + 8 * n);
    SameOutsideWider(m1, m2, m3, p + 8, p, p + 8 * (n + 2));
    StringsFrame(m1, m3, p + 8 * (n + 2), stktop, words, ptrs, 0);
    StackParts(m3, stktop, words, ptrs, p);
  }

  lemma StackParts(m: seq<byte>, stktop: nat, words: seq<seq<byte>>, ptrs: seq<nat>, p: nat)
    requires StringsAt(m, stktop, words, ptrs, 0) && Room(words, 0) <= stktop <= |m|
    requires p + 8 * (|words| + 2) <= stktop - Room(words, 0) && TableAt(m, p + 8, ptrs, |words|)
    requires Get64(m, p) == |words| && Get64(m, p + 8 + 8 * |words|) == 0
    ensures AbiStack(m, p, words) && Pieces(m, p, stktop, words)
  {
    hide Get64, IsCString, Room;
    forall k {:trigger words[k]} {:trigger Room(words, k)} | 0 <= k < |words|
      ensures Room(words, k) <= stktop && Get64(m, p + 8 + 8 * k) == stktop - Room(words, k)
      ensures IsCString(m, Get64(m, p + 8 + 8 * k), words[k])
    {
      assert words[k] == words[k] && ptrs[k] == Get64(m, p + 8 + 8 * k);
    }
  }

  // ---- Room for the words of a command line ---------------------------------

  function Total(ws: seq<seq<byte>>): nat
  {
    if ws == [] then 0 else |ws[0]| + 1 + Total(ws[1..])
  }

  lemma {:induction false} RoomIsTotal(ws: seq<seq<byte>>, i: nat)
    requires i <= |ws|
    ensures Room(ws, i) == Total(ws[i..])
    decreases |ws| - i
  {
    if i < |ws| {
      RoomIsTotal(ws, i + 1);
      assert ws[i..][1..] == ws[i + 1..];
    }
  }

  lemma {:induction false} TotalOfSplit(s: seq<byte>)
    ensures Total(Split(s)) == |s| + 1
  {
    if s != [] {
      TotalOfSplit(s[1..]);
      var rest := Split(s[1..]);
      assert Split(s)[1..] == if s[0] == SPACE then rest else rest[1..];
    } else {
      assert Total([[]]) == 1 + Total([]);
    }
  }

  lemma {:induction false} TotalNonEmpty(pieces: seq<seq<byte>>)
    ensures Total(NonEmpty(pieces)) <= Total(pieces)
  {
    if pieces != [] {
      TotalNonEmpty(pieces[1..]);
      assert pieces[0] != [] ==> NonEmpty(pieces)[1..] == NonEmpty(pieces[1..]);
      assert pieces[0] == [] ==> NonEmpty(pieces) == NonEmpty(pieces[1..]);
    }
  }

  lemma {:induction false} TotalPrefix(ws: seq<seq<byte>>, k: nat)
    requires k <= |ws|
    ensures Total(ws[..k]) <= Total(ws)
    decreases k
  {
    if k > 0 {
      TotalPrefix(ws[1..], k - 1);
      assert ws[..k][1..] == ws[1..][..k - 1];
    }
  }

  /** The words of a line, with their terminators, never need more room than the line with its own. */
  lemma RoomOfTokens(s: seq<byte>)
    ensures Room(First8(Tokens(s)), 0) <= |s| + 1
  {
    var ws := First8(Tokens(s));
    RoomIsTotal(ws, 0);
    assert ws[0..] == ws;
    TotalOfSplit(s);
    TotalNonEmpty(Split(s));
    if |Tokens(s)| > ARG_MAX { TotalPrefix(Tokens(s), ARG_MAX); }
  }

  lemma WordsAreStrings(buf: seq<byte>, av: seq<nat>, words: seq<seq<byte>>, hi: nat)
    requires WordsAt(buf, av, words, hi)
    ensures forall i | 0 <= i < |words| :: IsCString(buf, av[i], words[i])
  {
    hide IsCString;
  }

  /** 176 bytes below the top suffice for what a command line can ask for. */
  lemma RoomEnough(stktop: nat, words: seq<seq<byte>>)
    requires |words| <= ARG_MAX && Room(words, 0) <= CMD_MAX + 1 && stktop >= 176
    ensures EntryRsp(stktop, words) >= stktop - 176
  {
  }
}
