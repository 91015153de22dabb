/**
 Archives laid out by the ustar interchange format, and what the file system makes of them.
 */
module Ustar {
  import opened Bytes
  import opened Vfs

  /** An archive member; only regular files become table entries. */
  datatype Member = Member(name: seq<byte>, content: seq<byte>, regular: bool)

  /** A header block for the member: the fields the format prescribes, any bytes elsewhere. */
  predicate Header(h: seq<byte>, m: Member)
  {
    && |h| == 512
    && |m.name| <= 99 && NulFree(m.name) && IsCString(h, 0, m.name)
    && |m.content| < Pow8(11) && h[124..135] == OctalDigits(|m.content|, 11) && (h[135] == 0x20 || h[135] == 0)
    && (m.regular <==> h[156] == 0x30 || h[156] == 0)
    && h[257..262] == [0x75, 0x73, 0x74, 0x61, 0x72]
  }

  /** From position p on the bytes are the members, then an all-zero block or the end of the archive. */
  predicate Layout(a: seq<byte>, p: nat, ms: seq<Member>)
    decreases ms
  {
    if ms == [] then p + 512 > |a| || ZeroBlock(a, p)
    else
      var m := ms[0];
      && p + 512 + Round512(|m.content|) <= |a|
      && Header(a[p..p + 512], m)
      && a[p + 512..p + 512 + |m.content|] == m.content
      && Layout(a, p + 512 + Round512(|m.content|), ms[1..])
  }

  /** Contents are padded to the next multiple of 512. */
  lemma Padding(n: nat)
    ensures Round512(n) % 512 == 0 && n <= Round512(n) < n + 512
  {
  }

  /** The regular members, in order. */
  function Regulars(ms: seq<Member>): (r: seq<Member>)
  {
    if ms == [] then [] else (if ms[0].regular then [ms[0]] else []) + Regulars(ms[1..])
  }

  /** The table entries of the regular members. */
  function Entries(ms: seq<Member>, p: nat): (r: seq<File>)
    ensures |r| == |Regulars(ms)|
  {
    if ms == [] then []
    else
      var m := ms[0];
      (if m.regular then [File([0x2F] + m.name, p + BLOCK, |m.content|)] else [])
      + Entries(ms[1..], p + BLOCK + Round512(|m.content|))
  }

  lemma {:induction false} NameBack(field: seq<byte>, name: seq<byte>)
    requires |name| <= |field| && NulFree(name) && field[..|name|] == name && (|name| == |field| || field[|name|] == 0)
    ensures CName(field) == name
    decreases name
  {
    if name != [] {
      assert field[0] == field[..|name|][0] == name[0];
      assert field[1..][..|name| - 1] == field[..|name|][1..];
      NameBack(field[1..], name[1..]);
      assert name == [name[0]] + name[1..];
    }
  }

  /** The parser's reading of a header block is the member it was written for. */
  lemma HeaderBack(a: seq<byte>, p: nat, m: Member)
    requires p + BLOCK + Round512(|m.content|) <= |a| < TWO32 && Header(a[p..p + BLOCK], m)
    ensures !ZeroBlock(a, p) && HasMagic(a, p) && IsRegular(a, p) == m.regular
    ensures EntryAt(a, p) == File([0x2F] + m.name, p + BLOCK, |m.content|)
    ensures Advance(SizeField(a, p)) == BLOCK + Round512(|m.content|)
  {
    var h := a[p..p + BLOCK];
    MagicBack(a, p);
    assert h[156] == a[p + 156];
    SizeBack(a, p, m);
    AdvanceWraps(|m.content|);
    var field := a[p..p + 99];
    assert forall i | 0 <= i < 99 :: field[i] == h[i];
    NameBack(field, m.name);
  }

  lemma MagicBack(a: seq<byte>, p: nat)
    requires p + BLOCK <= |a| && a[p..p + BLOCK][257..262] == USTAR
    ensures HasMagic(a, p) && !ZeroBlock(a, p)
  {
    SliceOfSlice(a, p, p + BLOCK, 257, 262);
    assert a[p + 257] == a[p + 257..p + 262][0];
  }

  lemma SizeBack(a: seq<byte>, p: nat, m: Member)
    requires p + BLOCK <= |a| && Header(a[p..p + BLOCK], m) && |m.content| < TWO32
    ensures SizeField(a, p) == |m.content|
  {
    var s := a[p + 124..p + 136];
    SliceOfSlice(a, p, p + BLOCK, 124, 135);
    assert s[..11] == a[p + 124..p + 135];
    OctalField(|m.content|, 11, s);
  }

  lemma ParseStep(a: seq<byte>, p: nat, files: seq<File>)
    requires p + BLOCK <= |a| && !ZeroBlock(a, p) && HasMagic(a, p)
    ensures IsRegular(a, p) && |files| >= MAX_FILES ==> Parse(a, p, files) == (-3, files)
    ensures !(IsRegular(a, p) && |files| >= MAX_FILES) && Advance(SizeField(a, p)) != 0 ==>
              Parse(a, p, files) == Parse(a, p + Advance(SizeField(a, p)), if IsRegular(a, p) then files + [EntryAt(a, p)] else files)
  {
    hide ZeroBlock, HasMagic, IsRegular, EntryAt, SizeField, Advance;
  }

  /** Return value and table when the given files are to be registered: all of them, or an error at the seventeenth. */
  function Registered(all: seq<File>): (int, seq<File>)
  {
    if |all| <= 16 then (|all|, all) else (-3, all[..16])
  }

  lemma TableFull(files: seq<File>, more: seq<File>)
    requires |files| == MAX_FILES && more != []
    ensures Registered(files + more) == (-3, files)
  {
    assert (files + more)[..MAX_FILES] == files;
  }

  lemma EntriesStep(ms: seq<Member>, p: nat, files: seq<File>)
    requires ms != []
    ensures var m, rest := ms[0], Entries(ms[1..], p + BLOCK + Round512(|ms[0].content|));
            var entry := File([0x2F] + m.name, p + BLOCK, |m.content|);
            && files + Entries(ms, p) == (if m.regular then files + [entry] else files) + rest
            && (m.regular ==> Entries(ms, p) != [])
  {
  }

  /** Up to sixteen regular files are all registered, in order; a further one is the error -3. */
  lemma {:induction false} ParseLayout(a: seq<byte>, p: nat, ms: seq<Member>, files: seq<File>)
    requires |a| < TWO32 && Layout(a, p, ms) && |files| <= MAX_FILES
    ensures Parse(a, p, files) == Registered(files + Entries(ms, p))
    decreases ms
  {
    hide Header, EntryAt, SizeField, Advance, HasMagic, ZeroBlock, IsRegular, Round512, Parse, Entries, Registered;
    if ms == [] {
      ParseEnd(a, p, files);
    } else {
      var m, next := ms[0], p + BLOCK + Round512(|ms[0].content|);
      HeaderBack(a, p, m);
      ParseStep(a, p, files);
      EntriesStep(ms, p, files);
      if m.regular && |files| == MAX_FILES {
        TableFull(files, Entries(ms, p));
      } else {
        ParseLayout(a, next, ms[1..], if m.regular then files + [EntryAt(a, p)] else files);
      }
    }
  }

  lemma ParseEnd(a: seq<byte>, p: nat, files: seq<File>)
    requires Layout(a, p, []) && |files| <= MAX_FILES
    ensures Parse(a, p, files) == Registered(files + Entries([], p))
  {
    assert files + [] == files;
  }

  /** Entry k has the name and the bytes of regular member k. */
  lemma {:induction false} EntryIsMember(a: seq<byte>, p: nat, ms: seq<Member>, k: nat)
    requires Layout(a, p, ms) && k < |Regulars(ms)|
    ensures var f, m := Entries(ms, p)[k], Regulars(ms)[k];
            f.name == [0x2F] + m.name && f.start + f.size <= |a| && a[f.start..f.start + f.size] == m.content && NulFree(m.name)
    decreases ms
  {
    hide Header, Round512;
    var next := p + BLOCK + Round512(|ms[0].content|);
    if !ms[0].regular {
      EntryIsMember(a, next, ms[1..], k);
    } else if k > 0 {
      EntryIsMember(a, next, ms[1..], k - 1);
    } else {
      ContentFits(ms[0].content);
      HeaderName(a[p..p + BLOCK], ms[0]);
    }
  }

  lemma ContentFits(content: seq<byte>)
    ensures |content| <= Round512(|content|)
  {
  }

  lemma HeaderName(h: seq<byte>, m: Member)
    requires Header(h, m)
    ensures NulFree(m.name)
  {
  }

  ghost predicate DistinctNames(ms: seq<Member>)
  {
    forall i, j | 0 <= i < j < |ms| :: ms[i].name != ms[j].name
  }

  /** With distinct names, looking a regular member up finds exactly its entry. */
  lemma LookupMember(a: seq<byte>, ms: seq<Member>, k: nat)
    requires Layout(a, 0, ms) && k < |Regulars(ms)| && DistinctNames(Regulars(ms))
    ensures IndexOf(Entries(ms, 0), [0x2F] + Regulars(ms)[k].name) == k
  {
    hide Layout, Entries, Regulars, IndexOf;
    var es, name := Entries(ms, 0), [0x2F] + Regulars(ms)[k].name;
    var idx := IndexOf(es, name);
    EntryIsMember(a, 0, ms, k);
    if idx >= 0 {
      EntryIsMember(a, 0, ms, idx);
      assert Regulars(ms)[idx].name == ([0x2F] + Regulars(ms)[idx].name)[1..] == name[1..] == Regulars(ms)[k].name;
    }
  }

  /** One read call with a buffer of the requested length. */
  method ReadPiece(fs: FileSystem, h: Handle, len: nat) returns (bytes: seq<byte>)
    requires fs.Valid() && 0 <= h.fd < |fs.files| && len < TWO32
    modifies h`pos
    ensures (bytes, h.pos) == ReadOnce(fs.Data(h.fd), old(h.pos), len)
  {
    var buf := new byte[len];
    var before := h.pos;
    var r := fs.Read(h, buf, 0, len);
    bytes := buf[..h.pos - before];
  }

  /** Mount the archive, open one of its files, and read it in pieces. */
  method MountAndRead(a: seq<byte>, ghost ms: seq<Member>, ghost k: nat, name: seq<byte>, lens: seq<nat>) returns (out: seq<byte>)
    requires BLOCK <= |a| < TWO32 && Layout(a, 0, ms) && |Regulars(ms)| <= MAX_FILES && DistinctNames(Regulars(ms))
    requires k < |Regulars(ms)| && name == [0x2F] + Regulars(ms)[k].name
    requires forall i | 0 <= i < |lens| :: lens[i] < TWO32
    ensures var content := Regulars(ms)[k].content;
            out == content[..if Sum(lens) > |content| then |content| else Sum(lens)]
  {
    hide Layout, Entries, Regulars, IndexOf, Parse, Sum, DistinctNames;
    var fs := new FileSystem();
    var r := fs.Init(Some(a));
    ParseLayout(a, 0, ms, []);
    assert [] + Entries(ms, 0) == Entries(ms, 0);
    EntryIsMember(a, 0, ms, k);
    LookupMember(a, ms, k);
    var h := new Handle();
    var ok := fs.Open(name, h);
    ghost var content := Regulars(ms)[k].content;
    assert fs.Data(k) == content;
    out := [];
    for i := 0 to |lens|
      invariant fs.Valid() && k < |fs.files| && fs.Data(k) == content && h.fd == k
      invariant (out, h.pos) == ReadAll(content, 0, lens[..i])
    {
      var more := ReadPiece(fs, h, lens[i]);
      assert lens[..i + 1][..i] == lens[..i];
      out := out + more;
    }
    assert lens[..|lens|] == lens;
    ReadsConcatenate(content, lens);
  }
}
