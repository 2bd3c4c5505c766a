/** The pointer tables of a new program, made by reading its strings back (fs/exec.c). */
module ExecTables {
  import opened Basics
  import opened ExecStrings

  type Mem = map<int, byte>

  function Peek(m: Mem, a: int): byte {
    if a in m then m[a] else 0
  }

  /** put_fs_long: four bytes, the lowest first. */
  function PutLong(m: Mem, v: int, a: int): Mem {
    m[a := v % 256][a + 1 := v / 256 % 256][a + 2 := v / 65536 % 256][a + 3 := v / 16777216 % 256]
  }

  function GetLong(m: Mem, a: int): int {
    Peek(m, a) + 256 * Peek(m, a + 1) + 65536 * Peek(m, a + 2) + 16777216 * Peek(m, a + 3)
  }

  lemma GetPut(m: Mem, v: int, a: int)
    requires 0 <= v < 0x1_0000_0000
    ensures GetLong(PutLong(m, v, a), a) == v
  {
    assert v == v % 256 + 256 * (v / 256);
    assert v / 256 == v / 256 % 256 + 256 * (v / 65536);
    assert v / 65536 == v / 65536 % 256 + 256 * (v / 16777216);
  }

  lemma PutKeeps(m: Mem, v: int, a: int, b: int)
    ensures b + 1 <= a || a + 4 <= b ==> Peek(PutLong(m, v, a), b) == Peek(m, b)
    ensures b + 4 <= a || a + 4 <= b ==> GetLong(PutLong(m, v, a), b) == GetLong(m, b)
  {
  }

  // ---------------------------------------------------------------- strings in memory

  /** The bytes from `p` on are `s`. */
  ghost predicate BytesAt(m: Mem, p: int, s: seq<byte>) {
    forall i :: p <= i < p + |s| ==> Peek(m, i) == s[i - p]
  }

  /** At `p` there is the string `s`, with its NUL. */
  ghost predicate StringAt(m: Mem, p: int, s: seq<byte>) {
    BytesAt(m, p, s + [0])
  }

  /** Where string `k` of a layout from `p` on begins. */
  function Begin(p: int, strs: seq<seq<byte>>, k: nat): int
    requires k <= |strs|
  {
    p + |Layout(strs[..k])|
  }

  lemma BeginNext(p: int, strs: seq<seq<byte>>, k: nat)
    requires k < |strs|
    ensures Begin(p, strs, k + 1) == Begin(p, strs, k) + |strs[k]| + 1
    ensures Begin(p, strs, k + 1) <= p + |Layout(strs)|
  {
    assert strs[..k + 1] == strs[..k] + [strs[k]];
    LayoutAppend(strs[..k], [strs[k]]);
    LayoutOne(strs[k]);
    assert strs == strs[..k + 1] + strs[k + 1..];
    LayoutAppend(strs[..k + 1], strs[k + 1..]);
  }

  lemma LayoutMiddle(strs: seq<seq<byte>>, k: nat)
    requires k < |strs|
    ensures Layout(strs) == Layout(strs[..k]) + ((strs[k] + [0]) + Layout(strs[k + 1..]))
  {
    hide Layout;
    assert strs == strs[..k] + strs[k..] && strs[k..] == [strs[k]] + strs[k + 1..];
    LayoutAppend(strs[..k], strs[k..]);
    LayoutAppend([strs[k]], strs[k + 1..]);
    LayoutOne(strs[k]);
  }

  lemma StringThere(m: Mem, p: int, strs: seq<seq<byte>>, k: nat)
    requires BytesAt(m, p, Layout(strs)) && k < |strs|
    ensures StringAt(m, Begin(p, strs, k), strs[k])
  {
    hide Layout;
    LayoutMiddle(strs, k);
    MiddleBytes(m, p, Layout(strs[..k]), strs[k] + [0], Layout(strs[k + 1..]));
  }

  lemma MiddleBytes(m: Mem, p: int, a: seq<byte>, b: seq<byte>, c: seq<byte>)
    requires BytesAt(m, p, a + (b + c))
    ensures BytesAt(m, p + |a|, b)
  {
    forall i | p + |a| <= i < p + |a| + |b| ensures Peek(m, i) == b[i - (p + |a|)] {
      assert (a + (b + c))[i - p] == b[i - p - |a|];
    }
  }

  lemma BytesKept(m: Mem, m': Mem, p: int, s: seq<byte>, lo: int)
    requires BytesAt(m, p, s) && lo <= p && forall a :: a >= lo ==> Peek(m', a) == Peek(m, a)
    ensures BytesAt(m', p, s)
  {
  }

  // ---------------------------------------------------------------- tables

  /** A table at `t` of pointers to strings `k` up to `k + n` of a layout from `p` on, with a null pointer at its end.
      */
  ghost predicate TableAt(m: Mem, t: int, n: nat, p: int, strs: seq<seq<byte>>, k: nat) {
    k + n <= |strs| && (forall j :: 0 <= j < n ==>
      GetLong(m, t + 4 * j) == Begin(p, strs, k + j)) && GetLong(m, t + 4 * n) == 0
  }

  /** Longs from `lo` up to `hi` and bytes from `hi` on are as they were. */
  ghost predicate Unwritten(m: Mem, m': Mem, lo: int, hi: int) {
    forall a :: a < lo || a >= hi ==> Peek(m', a) == Peek(m, a)
  }

  const TASK_SIZE: int := 0xc000_0000
  const ARG_BASE: int := 0xbffe_0000     // TASK_SIZE - ARG_SIZE

  /** The pages of the strings at the top of the user's memory. */
  function Mapped(page: Pages): Mem
    requires PagesOk(page)
  {
    map a: int | ARG_BASE <= a < TASK_SIZE :: UserByte(page, a)
  }

  function UserByte(page: Pages, a: int): byte
    requires PagesOk(page) && ARG_BASE <= a < TASK_SIZE
  {
    ByteAt(page, a - ARG_BASE)
  }

  lemma MappedBytes(page: Pages, p: int, s: seq<byte>)
    requires Holds(page, p, s)
    ensures BytesAt(Mapped(page), ARG_BASE + p, s)
  {
    hide ByteAt;
    forall i | ARG_BASE + p <= i < ARG_BASE + p + |s| ensures Peek(Mapped(page), i) == s[i - (ARG_BASE + p)] {
      assert UserByte(page, i) == s[i - ARG_BASE - p];
    }
  }

  lemma {:induction false} LayoutCount(strs: seq<seq<byte>>)
    ensures |strs| <= |Layout(strs)|
  {
    if strs != [] { LayoutCount(strs[1..]); }
  }

  /** The environment as found when the count of arguments is one short: it begins with the last argument. */
  ghost function Shifted(args: seq<seq<byte>>, envp: seq<seq<byte>>): (r: seq<seq<byte>>)
    requires args != []
    ensures |r| == |envp| && args[..|args| - 1] + r == (args + envp)[..|args| + |envp| - 1]
  {
    ([args[|args| - 1]] + envp)[..|envp|]
  }

  /** What is laid out first is where it was. */
  lemma PrefixBytes(m: Mem, p: int, strs: seq<seq<byte>>, n: nat)
    requires BytesAt(m, p, Layout(strs)) && n <= |strs|
    ensures BytesAt(m, p, Layout(strs[..n])) && |Layout(strs[..n])| <= |Layout(strs)|
  {
    hide Layout;
    assert strs == strs[..n] + strs[n..];
    LayoutAppend(strs[..n], strs[n..]);
    assert Layout(strs) == [] + (Layout(strs[..n]) + Layout(strs[n..]));
    MiddleBytes(m, p, [], Layout(strs[..n]), Layout(strs[n..]));
  }

  lemma CountDiffers(m: Mem, sp: int, p: int, ibcs: bool, a: seq<seq<byte>>, e: seq<seq<byte>>, a': seq<seq<byte>>,
      e': seq<seq<byte>>)
    requires Tables(m, sp, p, ibcs, a, e) && |a'| != |a|
    ensures !Tables(m, sp, p, ibcs, a', e')
  {
  }

  /** Strings copied backwards into pages and tables made by reading them forwards: a new program finds its arguments,
      those of a script spliced in, and then its environment, whenever they fit, and unless a script was started with
      no arguments at all: then it finds the last argument as the first string of its environment. */
  method Prepare(argv: seq<seq<byte>>, envp: seq<seq<byte>>, script: Option<Script>, ibcs: bool)
    returns (ok: bool, user: User, sp: int, p: int)
    requires AllNulFree(argv) && AllNulFree(envp) && (script.Some? ==> ScriptOk(script.value))
    ensures ok <==> |Layout(ArgList(argv, script) + envp)| < ARG_SIZE - 4
    ensures ok ==> p + |Layout(ArgList(argv, script) + envp)| == TASK_SIZE - 4
    ensures ok ==>
      sp == StackFor(p, |ArgList(argv, script)| + |envp| - (if Uncounted(argv, script) then 1 else 0), ibcs)
    ensures ok ==> (Tables(user.mem, sp, p, ibcs, ArgList(argv, script), envp) <==> !Uncounted(argv, script))
    ensures ok && Uncounted(argv, script) ==>
      var args := ArgList(argv, script);
      args != [] && Tables(user.mem, sp, p, ibcs, args[..|args| - 1], Shifted(args, envp))
  {
    hide Layout, Tables, ByteAt, AllNulFree, NulFree, BytesAt;
    var image := new Image();
    var q, argc := image.Setup(argv, envp, script);
    user := new User(Mapped(image.page));
    ok, sp, p := q != 0, 0, ARG_BASE + q;
    if ok {
      ghost var args := ArgList(argv, script);
      MappedBytes(image.page, q, Layout(args + envp));
      LayoutCount(args + envp);
      ListNulFree(argv, envp, script);
      ghost var a, e := args, envp;
      if Uncounted(argv, script) { a, e := args[..|args| - 1], Shifted(args, envp); }
      ghost var n := |a| + |envp|;
      assert a + e == (args + envp)[..n];
      PrefixBytes(user.mem, p, args + envp, n);
      PrefixNulFree(args + envp, n);
      sp := user.CreateTables(p, argc, |envp|, ibcs, a, e);
      if Uncounted(argv, script) { CountDiffers(user.mem, sp, p, ibcs, a, e, args, envp); }
    }
  }

  lemma PrefixNulFree(strs: seq<seq<byte>>, n: nat)
    requires AllNulFree(strs) && n <= |strs|
    ensures AllNulFree(strs[..n])
  {
  }

  lemma ListNulFree(argv: seq<seq<byte>>, envp: seq<seq<byte>>, script: Option<Script>)
    requires AllNulFree(argv) && AllNulFree(envp) && (script.Some? ==> ScriptOk(script.value))
    ensures AllNulFree(ArgList(argv, script) + envp)
  {
    var l := ArgList(argv, script);
    if script.Some? {
      var a, b := ScriptArgs(script.value), if argv == [] then [] else argv[1..];
      assert AllNulFree(a) && AllNulFree(b);
    }
    assert AllNulFree(l);
  }

  class User {
    var mem: Mem

    constructor (mem: Mem)
      ensures this.mem == mem
    {
      this.mem := mem;
    }

    /** The strings from `p` on looked for one after the other, and their addresses put into a table. */
    method FillTable(t: int, n: nat, p: int, ghost p0: int, ghost strs: seq<seq<byte>>, ghost k: nat) returns (q: int)
      requires k + n <= |strs| && p == Begin(p0, strs, k) && BytesAt(mem, p0, Layout(strs)) && AllNulFree(strs)
      requires t + 4 * n + 4 <= p0 && 0 <= p0 && p0 + |Layout(strs)| < 0x1_0000_0000
      modifies this
      ensures q == Begin(p0, strs, k + n) && TableAt(mem, t, n, p0, strs, k)
      ensures Unwritten(old(mem), mem, t, t + 4 * n + 4)
    {
      hide Layout, PutLong, GetLong, Begin;
      q := p;
      var j: nat := 0;
      while j < n
        invariant j <= n && q == Begin(p0, strs, k + j) && Unwritten(old(mem), mem, t, t + 4 * j)
        invariant forall i :: 0 <= i < j ==> GetLong(mem, t + 4 * i) == Begin(p0, strs, k + i)
      {
        BeginBounds(p0, strs, k + j);
        PutNext(old(mem), mem, t, j, q);
        TablePut(mem, t, j, q, p0, strs, k);
        mem := PutLong(mem, q, t + 4 * j);
        BytesKept(old(mem), mem, p0, Layout(strs), p0);
        StringThere(mem, p0, strs, k + j);
        BeginNext(p0, strs, k + j);
        q := SkipString(q, strs[k + j]);
        j := j + 1;
      }
      PutNext(old(mem), mem, t, n, 0);
      TablePut(mem, t, n, 0, p0, strs, k);
      mem := PutLong(mem, 0, t + 4 * n);
    }

    /** create_tables: the stack pointer, with the count and the tables of arguments and environment above it and below
        the strings. */
    method CreateTables(p: int, argc: nat, envc: nat, ibcs: bool, ghost args: seq<seq<byte>>,
        ghost envs: seq<seq<byte>>) returns (sp: int)
      requires |args| == argc && |envs| == envc && AllNulFree(args + envs) && BytesAt(mem, p, Layout(args + envs))
      requires p >= 4 * (argc + envc) + 24 && p + |Layout(args + envs)| < 0x1_0000_0000
      modifies this
      ensures Tables(mem, sp, p, ibcs, args, envs) && forall a :: a >= p ==> Peek(mem, a) == Peek(old(mem), a)
      ensures sp == StackFor(p, argc + envc, ibcs)
    {
      hide Layout, PutLong, GetLong, Begin, BytesAt, AllNulFree, Tables;
      ghost var strs := args + envs;
      sp := p / 4 * 4;
      var envp := sp - 4 * (envc + 1);
      var argv := envp - 4 * (argc + 1);
      sp := argv;
      if !ibcs {
        sp := sp - 4;
        mem := PutLong(mem, envp, sp);
        sp := sp - 4;
        mem := PutLong(mem, argv, sp);
      }
      sp := sp - 4;
      mem := PutLong(mem, argc, sp);
      HeadPut(old(mem), mem, sp, argv, envp, argc, ibcs);
      label L:
      BytesKept(old(mem), mem, p, Layout(strs), argv);
      NoneBegun(p, strs);
      var q := FillTable(argv, argc, p, p, strs, 0);
      label M:
      BytesKept(old@L(mem), mem, p, Layout(strs), envp);
      q := FillTable(envp, envc, q, p, strs, argc);
      TablesDone(old@L(mem), old@M(mem), mem, sp, p, argv, envp, argc, envc, ibcs, args, envs);
    }

    /** The address behind the NUL of the string at `p`. */
    method SkipString(p: int, ghost s: seq<byte>) returns (q: int)
      requires StringAt(mem, p, s) && NulFree(s)
      ensures q == p + |s| + 1
    {
      q := p;
      NulAt(mem, p, s, q);
      while Peek(mem, q) != 0
        invariant p <= q <= p + |s| && (Peek(mem, q) == 0 <==> q == p + |s|)
        decreases p + |s| - q
      {
        q := q + 1;
        NulAt(mem, p, s, q);
      }
      q := q + 1;
    }
  }

  /** Right below the strings, at a multiple of four: the pointers and the two nulls, and the count with or without the
      addresses of the tables. */
  ghost function StackFor(p: int, n: int, ibcs: bool): int {
    p / 4 * 4 - 4 * (n + 2) - if ibcs then 4 else 12
  }

  /** What create_tables promises: count, pointers to the tables, the tables, and strings that read back as given. */
  ghost predicate Tables(m: Mem, sp: int, p: int, ibcs: bool, args: seq<seq<byte>>, envs: seq<seq<byte>>) {
    var argv := sp + if ibcs then 4 else 12;
    var envp := argv + 4 * (|args| + 1);
    && 0 <= sp && envp + 4 * (|envs| + 1) <= p && GetLong(m, sp) == |args|
    && (!ibcs ==> GetLong(m, sp + 4) == argv && GetLong(m, sp + 8) == envp)
    && (forall i :: 0 <= i < |args| ==>
        p <= GetLong(m, argv + 4 * i) && StringAt(m, GetLong(m, argv + 4 * i), args[i]))
    && GetLong(m, argv + 4 * |args|) == 0
    && (forall i :: 0 <= i < |envs| ==>
        p <= GetLong(m, envp + 4 * i) && StringAt(m, GetLong(m, envp + 4 * i), envs[i]))
    && GetLong(m, envp + 4 * |envs|) == 0
  }

  lemma NoneBegun(p: int, strs: seq<seq<byte>>)
    ensures Begin(p, strs, 0) == p
  {
  }

  /** The count and, unless they are left out, the pointers to the tables. */
  ghost predicate Head(m: Mem, sp: int, argv: int, envp: int, argc: int, ibcs: bool) {
    GetLong(m, sp) == argc && (!ibcs ==> GetLong(m, sp + 4) == argv && GetLong(m, sp + 8) == envp)
  }

  lemma HeadPut(m: Mem, m': Mem, sp: int, argv: int, envp: int, argc: int, ibcs: bool)
    requires sp == argv - (if ibcs then 4 else 12) && 0 <= argv < 0x1_0000_0000 && 0 <= envp < 0x1_0000_0000
    requires 0 <= argc < 0x1_0000_0000
    requires m' == PutLong(if ibcs then m else PutLong(PutLong(m, envp, argv - 4), argv, argv - 8), argc, sp)
    ensures Head(m', sp, argv, envp, argc, ibcs) && forall a :: a >= argv ==> Peek(m', a) == Peek(m, a)
  {
    hide PutLong, GetLong, Peek;
    var m1 := PutLong(m, envp, argv - 4);
    var m2 := PutLong(m1, argv, argv - 8);
    GetPut(m, envp, argv - 4);
    GetPut(m1, argv, argv - 8);
    PutKeeps(m1, argv, argv - 8, argv - 4);
    GetPut(if ibcs then m else m2, argc, sp);
    PutKeeps(m2, argc, sp, argv - 4);
    PutKeeps(m2, argc, sp, argv - 8);
    forall a | a >= argv ensures Peek(m', a) == Peek(m, a) {
      PutKeeps(m, envp, argv - 4, a);
      PutKeeps(m1, argv, argv - 8, a);
      PutKeeps(if ibcs then m else m2, argc, sp, a);
    }
  }

  lemma LongKept(m: Mem, m': Mem, lo: int, hi: int, a: int)
    requires Unwritten(m, m', lo, hi) && (a + 4 <= lo || hi <= a)
    ensures GetLong(m', a) == GetLong(m, a)
  {
  }

  lemma TableKept(m: Mem, m': Mem, t: int, n: nat, p: int, strs: seq<seq<byte>>, k: nat, hi: int)
    requires TableAt(m, t, n, p, strs, k) && Unwritten(m, m', t + 4 * n + 4, hi)
    ensures TableAt(m', t, n, p, strs, k)
  {
    hide GetLong, Begin;
    forall j | 0 <= j <= n
      ensures GetLong(m', t + 4 * j) == GetLong(m, t + 4 * j)
    {
      LongKept(m, m', t + 4 * n + 4, hi, t + 4 * j);
    }
  }

  /** The strings a table points to. */
  lemma TableStrings(m: Mem, t: int, n: nat, p: int, strs: seq<seq<byte>>, k: nat, i: nat)
    requires TableAt(m, t, n, p, strs, k) && BytesAt(m, p, Layout(strs)) && i < n
    ensures p <= GetLong(m, t + 4 * i) && StringAt(m, GetLong(m, t + 4 * i), strs[k + i])
  {
    hide GetLong, Begin, BytesAt, StringAt, Layout;
    assert GetLong(m, t + 4 * i) == Begin(p, strs, k + i);
    BeginBounds(p, strs, k + i);
    StringThere(m, p, strs, k + i);
  }

  lemma TablesDone(m1: Mem, m2: Mem, m: Mem, sp: int, p: int, argv: int, envp: int, argc: nat, envc: nat, ibcs: bool,
      args: seq<seq<byte>>, envs: seq<seq<byte>>)
    requires |args| == argc && |envs| == envc && Head(m1, sp, argv, envp, argc, ibcs)
    requires BytesAt(m1, p, Layout(args + envs))
    requires 0 <= sp == argv - (if ibcs then 4 else 12) && envp == argv + 4 * argc + 4 && envp + 4 * envc + 4 <= p
    requires TableAt(m2, argv, argc, p, args + envs, 0) && Unwritten(m1, m2, argv, envp)
    requires TableAt(m, envp, envc, p, args + envs, argc) && Unwritten(m2, m, envp, envp + 4 * envc + 4)
    ensures Tables(m, sp, p, ibcs, args, envs)
  {
    hide GetLong, Begin, BytesAt, StringAt, Layout;
    var strs := args + envs;
    BytesKept(m1, m2, p, Layout(strs), p);
    BytesKept(m2, m, p, Layout(strs), p);
    TableKept(m2, m, argv, argc, p, strs, 0, envp + 4 * envc + 4);
    forall a | a + 4 <= argv ensures GetLong(m, a) == GetLong(m1, a) {
      LongKept(m1, m2, argv, envp, a);
      LongKept(m2, m, envp, envp + 4 * envc + 4, a);
    }
    forall i | 0 <= i < argc ensures p <= GetLong(m, argv + 4 * i) && StringAt(m, GetLong(m, argv + 4 * i), args[i]) {
      TableStrings(m, argv, argc, p, strs, 0, i);
    }
    forall i | 0 <= i < envc ensures p <= GetLong(m, envp + 4 * i) && StringAt(m, GetLong(m, envp + 4 * i), envs[i]) {
      TableStrings(m, envp, envc, p, strs, argc, i);
    }
  }

  lemma NulAt(m: Mem, p: int, s: seq<byte>, q: int)
    requires StringAt(m, p, s) && NulFree(s) && p <= q <= p + |s|
    ensures Peek(m, q) == 0 <==> q == p + |s|
  {
    assert Peek(m, q) == (s + [0])[q - p];
  }

  lemma BeginBounds(p: int, strs: seq<seq<byte>>, k: nat)
    requires k <= |strs|
    ensures p <= Begin(p, strs, k) <= p + |Layout(strs)|
  {
    assert strs == strs[..k] + strs[k..];
    LayoutAppend(strs[..k], strs[k..]);
  }

  lemma PutNext(m0: Mem, m: Mem, t: int, j: nat, v: int)
    requires Unwritten(m0, m, t, t + 4 * j)
    ensures Unwritten(m0, PutLong(m, v, t + 4 * j), t, t + 4 * j + 4)
  {
    forall a | a < t || a >= t + 4 * j + 4
      ensures Peek(PutLong(m, v, t + 4 * j), a) == Peek(m0, a)
    {
      PutKeeps(m, v, t + 4 * j, a);
    }
  }

  lemma TablePut(m: Mem, t: int, j: nat, v: int, p: int, strs: seq<seq<byte>>, k: nat)
    requires 0 <= v < 0x1_0000_0000 && k + j <= |strs|
    requires forall i :: 0 <= i < j ==> GetLong(m, t + 4 * i) == Begin(p, strs, k + i)
    ensures GetLong(PutLong(m, v, t + 4 * j), t + 4 * j) == v
    ensures forall i :: 0 <= i < j ==> GetLong(PutLong(m, v, t + 4 * j), t + 4 * i) == Begin(p, strs, k + i)
  {
    hide PutLong, GetLong, Begin;
    GetPut(m, v, t + 4 * j);
    forall i | 0 <= i < j
      ensures GetLong(PutLong(m, v, t + 4 * j), t + 4 * i) == Begin(p, strs, k + i)
    {
      PutKeeps(m, v, t + 4 * j, t + 4 * i);
    }
  }
}
