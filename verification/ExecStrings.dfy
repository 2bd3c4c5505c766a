/** The argument and environment strings of a new program, copied backwards into pages (fs/exec.c). */
module ExecStrings {
  import opened Basics

  const PAGE_SIZE: nat := 4096
  const MAX_ARG_PAGES: nat := 32
  const ARG_SIZE: nat := 131072          // PAGE_SIZE * MAX_ARG_PAGES

  /** Strings as they stand in memory, each with its NUL. */
  function Layout(strs: seq<seq<byte>>): seq<byte> {
    if strs == [] then [] else strs[0] + [0] + Layout(strs[1..])
  }

  predicate NulFree(s: seq<byte>) {
    forall i :: 0 <= i < |s| ==> s[i] != 0
  }

  ghost predicate AllNulFree(strs: seq<seq<byte>>) {
    forall i :: 0 <= i < |strs| ==> NulFree(strs[i])
  }

  lemma {:induction false} LayoutAppend(a: seq<seq<byte>>, b: seq<seq<byte>>)
    ensures Layout(a + b) == Layout(a) + Layout(b)
  {
    if a == [] {
      assert a + b == b;
    } else {
      assert (a + b)[1..] == a[1..] + b;
      LayoutAppend(a[1..], b);
      assert a[0] + [0] + (Layout(a[1..]) + Layout(b)) == a[0] + [0] + Layout(a[1..]) + Layout(b);
    }
  }

  lemma LayoutOne(s: seq<byte>)
    ensures Layout([s]) == s + [0]
  {
    assert [s][1..] == [];
    assert s + [0] + [] == s + [0];
  }

  // ---------------------------------------------------------------- pages

  type Pages = seq<seq<byte>>

  /** All page slots are empty or hold a whole page. */
  predicate PagesOk(page: Pages) {
    |page| == MAX_ARG_PAGES && forall k :: 0 <= k < |page| ==> |page[k]| == 0 || |page[k]| == PAGE_SIZE
  }

  /** The byte at an address of the image; pages that are not there read as zeros. */
  function ByteAt(page: Pages, a: int): byte
    requires PagesOk(page) && 0 <= a < ARG_SIZE
  {
    PageIndex(a);
    if page[a / PAGE_SIZE] == [] then 0 else page[a / PAGE_SIZE][a % PAGE_SIZE]
  }

  lemma PageIndex(a: int)
    requires 0 <= a < ARG_SIZE
    ensures 0 <= a / PAGE_SIZE < MAX_ARG_PAGES && 0 <= a % PAGE_SIZE < PAGE_SIZE
  {
  }

  function Zeros(): seq<byte> {
    seq(PAGE_SIZE, _ => 0)
  }

  /** A page for address `a`, if there was none. */
  function WithPage(page: Pages, a: int): Pages
    requires PagesOk(page) && 0 <= a < ARG_SIZE
  {
    PageIndex(a);
    if page[a / PAGE_SIZE] == [] then page[a / PAGE_SIZE := Zeros()] else page
  }

  function Stored(page: Pages, a: int, b: byte): Pages
    requires PagesOk(page) && 0 <= a < ARG_SIZE
  {
    PageIndex(a);
    var k := a / PAGE_SIZE;
    if page[k] == [] then page
    else
      var bytes: seq<byte> := page[k][..a % PAGE_SIZE] + [b] + page[k][a % PAGE_SIZE + 1..];
      page[k := bytes]
  }

  lemma SamePlace(a: int, c: int)
    requires a / PAGE_SIZE == c / PAGE_SIZE && a % PAGE_SIZE == c % PAGE_SIZE
    ensures a == c
  {
  }

  lemma WithPageBytes(page: Pages, a: int, c: int)
    requires PagesOk(page) && 0 <= a < ARG_SIZE && 0 <= c < ARG_SIZE
    ensures PagesOk(WithPage(page, a)) && ByteAt(WithPage(page, a), c) == ByteAt(page, c)
    ensures WithPage(page, a)[a / PAGE_SIZE] != []
  {
    PageIndex(a);
    PageIndex(c);
  }

  lemma StoredBytes(page: Pages, a: int, b: byte, c: int)
    requires PagesOk(page) && 0 <= a < ARG_SIZE && 0 <= c < ARG_SIZE && a / PAGE_SIZE < |page|
    requires page[a / PAGE_SIZE] != []
    ensures PagesOk(Stored(page, a, b)) && ByteAt(Stored(page, a, b), c) == if c == a then b else ByteAt(page, c)
    ensures Stored(page, a, b)[a / PAGE_SIZE] != []
  {
    PageIndex(a);
    PageIndex(c);
    if c != a && c / PAGE_SIZE == a / PAGE_SIZE && c % PAGE_SIZE == a % PAGE_SIZE { SamePlace(a, c); }
  }

  /** The bytes from `p` on are `s`. */
  ghost predicate Holds(page: Pages, p: int, s: seq<byte>) {
    PagesOk(page) && 0 <= p && p + |s| <= ARG_SIZE && forall i :: p <= i < p + |s| ==> ByteAt(page, i) == s[i - p]
  }

  /** From address `p` on nothing has changed. */
  ghost predicate KeptFrom(page: Pages, page': Pages, p: int) {
    PagesOk(page) && PagesOk(page') && 0 <= p && forall i :: p <= i < ARG_SIZE ==> ByteAt(page', i) == ByteAt(page, i)
  }

  lemma HoldsKept(page: Pages, page': Pages, p: int, q: int, s: seq<byte>)
    requires Holds(page, q, s) && KeptFrom(page, page', p) && p <= q
    ensures Holds(page', q, s)
  {
  }

  lemma HoldsConcat(page: Pages, p: int, s: seq<byte>, t: seq<byte>)
    requires Holds(page, p, s) && Holds(page, p + |s|, t)
    ensures Holds(page, p, s + t)
  {
    forall i | p <= i < p + |s + t| ensures ByteAt(page, i) == (s + t)[i - p] { }
  }

  class Image {
    var page: Pages

    constructor ()
      ensures PagesOk(page)
    {
      page := seq(MAX_ARG_PAGES, _ => []);
    }

    /** One string with its NUL copied below `p`, last byte first, taking pages as they are needed. */
    method CopyString(s: seq<byte>, p0: nat, off0: int, pag0: int) returns (p: nat, off: int, pag: int)
      requires PagesOk(page) && |s| + 1 <= p0 <= ARG_SIZE && Cursor(page, p0, off0, pag0)
      modifies this
      ensures p == p0 - (|s| + 1) && Holds(page, p, s + [0]) && KeptFrom(old(page), page, p0)
      ensures Cursor(page, p, off, pag)
    {
      hide ByteAt, Stored, WithPage, PagesOk;
      ghost var t := s + [0];
      p, off, pag := p0, off0, pag0;
      var len := |s| + 1;
      while len > 0
        invariant 0 <= len <= |t| && p == p0 - (|t| - len) && PagesOk(page) && Cursor(page, p, off, pag)
        invariant Holds(page, p, t[len..]) && KeptFrom(old(page), page, p0)
      {
        p, len := p - 1, len - 1;
        off := off - 1;
        if off < 0 {
          off, pag := p % PAGE_SIZE, p / PAGE_SIZE;
          PageThere(page, p, p + 1, t[len + 1..]);
          KeptMore(old(page), page, WithPage(page, p), p0, p);
          page := WithPage(page, p);
        }
        PutByte(page, p, t[len], t[len + 1..], off, pag);
        KeptStore(old(page), page, p, t[len], p0);
        assert t[len..] == [t[len]] + t[len + 1..];
        page := Stored(page, p, if len < |s| then s[len] else 0);
      }
      assert t[0..] == t;
    }

    /** copy_strings: all strings below `p`, the last one first; 0 when they do not fit with a byte to spare. */
    method CopyStrings(argv: seq<seq<byte>>, p: nat) returns (q: nat)
      requires PagesOk(page) && p <= ARG_SIZE && AllNulFree(argv)
      modifies this
      ensures PagesOk(page) && (q == 0 <==> |Layout(argv)| >= p)
      ensures q != 0 ==> q == p - |Layout(argv)| && Holds(page, q, Layout(argv)) && KeptFrom(old(page), page, p)
    {
      hide ByteAt, PagesOk, Layout;
      q := p;
      if p == 0 { return; }
      var argc, off, pag := |argv|, 0, 0;
      EmptyLayout(argv);
      KeptSelf(page, p);
      while argc > 0
        invariant 0 <= argc <= |argv| && PagesOk(page) && Cursor(page, q, off, pag)
        invariant q == p - |Layout(argv[argc..])| && Holds(page, q, Layout(argv[argc..]))
        invariant KeptFrom(old(page), page, p)
      {
        argc := argc - 1;
        var s := argv[argc];
        NextLayout(argv, argc);
        var len := Length(s);
        if q < len {
          LayoutTail(argv, argc);
          return 0;
        }
        ghost var page0, q0 := page, q;
        q, off, pag := CopyString(s, q, off, pag);
        HoldsKept(page0, page, q0, q0, Layout(argv[argc + 1..]));
        HoldsConcat(page, q, s + [0], Layout(argv[argc + 1..]));
        KeptTrans(old(page), page0, page, p, q0);
      }
      assert argv[0..] == argv;
    }

    /** The strings of do_execve: environment and arguments, or for a script what its first line says. */
    method Setup(argv: seq<seq<byte>>, envp: seq<seq<byte>>, script: Option<Script>) returns (p: nat, argc: int)
      requires PagesOk(page) && AllNulFree(argv) && AllNulFree(envp) && (script.Some? ==> ScriptOk(script.value))
      modifies this
      ensures PagesOk(page) && Placed(page, p, ArgList(argv, script) + envp, ARG_SIZE - 4)
      ensures argc == |ArgList(argv, script)| - if Uncounted(argv, script) then 1 else 0
    {
      hide PagesOk, Placed, AllNulFree, NulFree;
      argc := |argv|;
      p := ARG_SIZE - 4;
      NothingPlaced(page, p);
      p := Push(envp, p, [], p);
      assert envp + [] == envp;
      if script.Some? {
        argc := argc - 1;
        var args := if argv == [] then [] else argv[1..];
        TailNulFree(argv);
        p := Push(args, p, envp, ARG_SIZE - 4);
        p, argc := PushScript(script.value, p, argc, args, envp);
        assert ScriptArgs(script.value) + args + envp == ScriptArgs(script.value) + (args + envp);
        assert ArgList(argv, script) == ScriptArgs(script.value) + args;
      } else {
        p := Push(argv, p, envp, ARG_SIZE - 4);
      }
    }

    /** The splice for a script: its name, the argument, the name of the interpreter, each below the last. */
    method PushScript(s: Script, p0: nat, argc0: int, ghost args: seq<seq<byte>>, ghost envp: seq<seq<byte>>)
      returns (p: nat, argc: int)
      requires PagesOk(page) && ScriptOk(s) && Placed(page, p0, args + envp, ARG_SIZE - 4)
      modifies this
      ensures PagesOk(page) && Placed(page, p, ScriptArgs(s) + (args + envp), ARG_SIZE - 4)
      ensures argc == argc0 + |ScriptArgs(s)|
    {
      hide PagesOk, Placed;
      ghost var rest := args + envp;
      p := Push([s.file], p0, rest, ARG_SIZE - 4);
      argc := argc0 + 1;
      rest := [s.file] + rest;
      if s.arg.Some? {
        p := Push([s.arg.value], p, rest, ARG_SIZE - 4);
        argc := argc + 1;
        rest := [s.arg.value] + rest;
      }
      p := Push([s.name], p, rest, ARG_SIZE - 4);
      argc := argc + 1;
      assert [s.name] + rest == ScriptArgs(s) + (args + envp);
    }

    /** Strings put below others that are there already. */
    method Push(strs: seq<seq<byte>>, p: nat, ghost rest: seq<seq<byte>>, ghost top: nat) returns (q: nat)
      requires PagesOk(page) && AllNulFree(strs) && Placed(page, p, rest, top)
      modifies this
      ensures PagesOk(page) && Placed(page, q, strs + rest, top)
    {
      hide ByteAt, PagesOk, Layout, Holds, KeptFrom;
      LayoutAppend(strs, rest);
      ghost var page0 := page;
      q := CopyStrings(strs, p);
      if q != 0 {
        HoldsKept(page0, page, p, p, Layout(rest));
        HoldsConcat(page, q, Layout(strs), Layout(rest));
      }
    }
  }

  /** Strings laid out below `top` from `p` on; `p` is 0 when they need as much room as there is, or more. */
  ghost predicate Placed(page: Pages, p: nat, strs: seq<seq<byte>>, top: nat) {
    && p <= top <= ARG_SIZE && 0 < top && (p == 0 <==> |Layout(strs)| >= top)
    && (p != 0 ==> p == top - |Layout(strs)| && Holds(page, p, Layout(strs)))
  }

  lemma NothingPlaced(page: Pages, p: nat)
    requires PagesOk(page) && 0 < p <= ARG_SIZE
    ensures Placed(page, p, [], p)
  {
  }

  lemma TailNulFree(argv: seq<seq<byte>>)
    requires AllNulFree(argv)
    ensures AllNulFree(if argv == [] then [] else argv[1..])
  {
  }

  /** What the first line of a script names: the interpreter, an argument for it; and the script itself. */
  datatype Script = Script(name: seq<byte>, arg: Option<seq<byte>>, file: seq<byte>)

  predicate ScriptOk(s: Script) {
    NulFree(s.name) && NulFree(s.file) && (s.arg.Some? ==> NulFree(s.arg.value))
  }

  /** What takes the place of the first argument. */
  function ScriptArgs(s: Script): seq<seq<byte>> {
    [s.name] + (if s.arg.Some? then [s.arg.value] else []) + [s.file]
  }

  /** The arguments the new program should find. */
  function ArgList(argv: seq<seq<byte>>, script: Option<Script>): seq<seq<byte>> {
    if script.None? then argv
    else ScriptArgs(script.value) + if argv == [] then [] else argv[1..]
  }

  /** A script started with no arguments takes the place of one that is not there. */
  predicate Uncounted(argv: seq<seq<byte>>, script: Option<Script>) {
    script.Some? && argv == []
  }

  /** What lies at place `k` of a string in memory. */
  function CharAt(s: seq<byte>, k: nat): byte {
    if k < |s| then s[k] else 0
  }

  /** The length of a string with its NUL, found by looking for it. */
  method Length(s: seq<byte>) returns (len: nat)
    requires NulFree(s)
    ensures len == |s| + 1
  {
    len := 1;
    while CharAt(s, len - 1) != 0
      invariant 1 <= len <= |s| + 1
      decreases |s| + 1 - len
    {
      len := len + 1;
    }
  }

  lemma EmptyLayout(argv: seq<seq<byte>>)
    ensures Layout(argv[|argv|..]) == []
  {
  }

  lemma NextLayout(argv: seq<seq<byte>>, k: nat)
    requires k < |argv|
    ensures Layout(argv[k..]) == argv[k] + [0] + Layout(argv[k + 1..])
  {
    assert argv[k..][1..] == argv[k + 1..];
  }

  lemma LayoutTail(argv: seq<seq<byte>>, k: nat)
    requires k <= |argv|
    ensures |Layout(argv)| >= |Layout(argv[k..])|
  {
    assert argv == argv[..k] + argv[k..];
    LayoutAppend(argv[..k], argv[k..]);
  }

  lemma KeptSelf(page: Pages, p: int)
    requires PagesOk(page) && p >= 0
    ensures KeptFrom(page, page, p)
  {
  }

  lemma KeptTrans(a: Pages, b: Pages, c: Pages, p: int, q: int)
    requires KeptFrom(a, b, p) && KeptFrom(b, c, q) && q <= p
    ensures KeptFrom(a, c, p)
  {
  }

  /** The cached page and offset belong to the byte last written, unless the offset is used up. */
  ghost predicate Cursor(page: Pages, p: nat, off: int, pag: int) {
    && off >= 0
    && (off > 0 ==> PagesOk(page) && p < ARG_SIZE && off == p % PAGE_SIZE && pag == p / PAGE_SIZE)
    && (off > 0 ==> 0 <= pag < |page| && page[pag] != [])
  }

  lemma PageThere(page: Pages, p: int, q: int, s: seq<byte>)
    requires PagesOk(page) && 0 <= p < ARG_SIZE && Holds(page, q, s)
    ensures PagesOk(WithPage(page, p)) && p / PAGE_SIZE < |page| && WithPage(page, p)[p / PAGE_SIZE] != []
    ensures Holds(WithPage(page, p), q, s)
  {
    WithPageBytes(page, p, p);
    PageIndex(p);
    forall i | q <= i < q + |s| ensures ByteAt(WithPage(page, p), i) == s[i - q] { WithPageBytes(page, p, i); }
  }

  lemma KeptMore(page0: Pages, page: Pages, page': Pages, p0: int, p: int)
    requires KeptFrom(page0, page, p0) && 0 <= p < ARG_SIZE && page' == WithPage(page, p)
    ensures KeptFrom(page0, page', p0)
  {
    WithPageBytes(page, p, p);
    forall i | p0 <= i < ARG_SIZE ensures ByteAt(page', i) == ByteAt(page0, i) { WithPageBytes(page, p, i); }
  }

  lemma PutByte(page: Pages, p: int, b: byte, s: seq<byte>, off: int, pag: int)
    requires PagesOk(page) && 0 <= p < ARG_SIZE && Holds(page, p + 1, s) && off == p % PAGE_SIZE && pag == p / PAGE_SIZE
    requires 0 <= p / PAGE_SIZE < |page| && page[p / PAGE_SIZE] != []
    ensures PagesOk(Stored(page, p, b)) && Holds(Stored(page, p, b), p, [b] + s)
    ensures Cursor(Stored(page, p, b), p, off, pag)
  {
    StoredBytes(page, p, b, p);
    PageIndex(p);
    forall i | p <= i < p + |[b] + s|
      ensures ByteAt(Stored(page, p, b), i) == ([b] + s)[i - p]
    {
      StoredBytes(page, p, b, i);
    }
  }

  lemma KeptStore(page0: Pages, page: Pages, p: int, b: byte, p0: int)
    requires KeptFrom(page0, page, p0) && 0 <= p < p0 && p < ARG_SIZE && 0 <= p / PAGE_SIZE < |page|
    requires page[p / PAGE_SIZE] != []
    ensures KeptFrom(page0, Stored(page, p, b), p0)
  {
    StoredBytes(page, p, b, p);
    forall i | p0 <= i < ARG_SIZE
      ensures ByteAt(Stored(page, p, b), i) == ByteAt(page0, i)
    {
      StoredBytes(page, p, b, i);
    }
  }
}
