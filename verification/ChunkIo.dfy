/** Dumping and loading in their own form: a writer that may fail, and a stream that is consumed. */
module ChunkIo {
  import opened ChunkFormat

  // ---------- dumping ----------

  /** The writer: the status that it returns for its n-th block. */
  type Writer = (nat, seq<byte>) -> int

  /** What the writer has taken, the status, and how many blocks it was given. */
  datatype Output = Output(data: seq<byte>, status: int, calls: nat)

  /** The last block given to the writer follows what it has taken, and its answer is the status. */
  predicate Refused(before: Output, after: Output, bytes: seq<byte>, writer: Writer, block: seq<byte>) {
    && before.data <= after.data && after.data + block <= before.data + bytes
    && after.calls > before.calls && writer(after.calls - 1, block) == after.status
  }

  /** If all went well the bytes have been added, and exactly then; after an error nothing is written any
      more; if the error is new, some of the bytes may have been added, and the block after them was
      refused with this status. */
  ghost predicate Wrote(before: Output, after: Output, bytes: seq<byte>, writer: Writer) {
    && before.calls <= after.calls
    && (before.status != 0 ==> after == before)
    && (after.status == 0 ==> after.data == before.data + bytes)
    && (before.status == 0 && after.status != 0 ==> exists block :: Refused(before, after, bytes, writer, block))
  }

  lemma RefusedLater(a: Output, b: Output, c: Output, x: seq<byte>, y: seq<byte>, writer: Writer, block: seq<byte>)
    requires Refused(b, c, y, writer, block) && b.data == a.data + x && a.calls <= b.calls
    ensures Refused(a, c, x + y, writer, block)
  {
    assert b.data + y == a.data + (x + y);
    assert a.data <= b.data;
    assert a.data == b.data[..|a.data|] == c.data[..|b.data|][..|a.data|] == c.data[..|a.data|];
  }

  lemma RefusedBefore(a: Output, b: Output, x: seq<byte>, y: seq<byte>, writer: Writer, block: seq<byte>)
    requires Refused(a, b, x, writer, block)
    ensures Refused(a, b, x + y, writer, block)
  {
    assert a.data + (x + y) == (a.data + x) + y;
  }

  lemma WroteBoth(a: Output, b: Output, c: Output, x: seq<byte>, y: seq<byte>, writer: Writer)
    requires Wrote(a, b, x, writer) && Wrote(b, c, y, writer)
    ensures Wrote(a, c, x + y, writer)
  {
    hide Refused;
    assert a.data + (x + y) == (a.data + x) + y;
    if a.status == 0 && b.status != 0 {
      var block :| Refused(a, b, x, writer, block);
      RefusedBefore(a, b, x, y, writer, block);
    } else if b.status == 0 && c.status != 0 {
      var block :| Refused(b, c, y, writer, block);
      RefusedLater(a, b, c, x, y, writer, block);
    }
  }

  lemma WroteNothing(a: Output, writer: Writer)
    ensures Wrote(a, a, [], writer)
  {
    assert a.data + [] == a.data;
  }

  /** Whatever happens, what has been taken is a part of what there was to write, from its start. */
  lemma TakenPrefix(a: Output, b: Output, bytes: seq<byte>, writer: Writer)
    requires Wrote(a, b, bytes, writer)
    ensures a.data <= b.data <= a.data + bytes
    ensures (forall n: nat, block: seq<byte> :: writer(n, block) == 0) ==> b.status == a.status
  {
    if a.status == 0 && b.status != 0 {
      var block :| Refused(a, b, bytes, writer, block);
      assert b.data <= b.data + block;
    }
  }

  class DumpState {
    const writer: Writer
    const strip: bool
    var out: seq<byte>
    var calls: nat
    var status: int

    constructor (writer: Writer, strip: bool)
      ensures this.writer == writer && this.strip == strip && out == [] && status == 0 && calls == 0
    {
      this.writer := writer;
      this.strip := strip;
      out, calls, status := [], 0, 0;
    }

    ghost function State(): Output
      reads this
    {
      Output(out, status, calls)
    }

    method DumpBlock(b: seq<byte>)
      modifies this
      ensures Wrote(old(State()), State(), b, writer)
    {
      ghost var was := State();
      if status == 0 {
        status := writer(calls, b);
        calls := calls + 1;
        if status == 0 { out := out + b; }
        assert status != 0 ==> Refused(was, State(), b, writer, b);
      }
    }

    method DumpInt(x: Int32)
      modifies this
      ensures Wrote(old(State()), State(), IntBytes(x), writer)
    {
      DumpBlock(IntBytes(x));
    }

    /** A count. */
    method DumpSize(n: nat)
      modifies this
      ensures Wrote(old(State()), State(), Le(n, 4), writer)
    {
      DumpBlock(Le(n, 4));
    }

    method DumpString(s: Option<Text>)
      modifies this
      ensures Wrote(old(State()), State(), StringBytes(s), writer)
    {
      hide Wrote;
      match s
      case None => DumpSize(0);
      case Some(t) =>
        ghost var a := State();
        DumpSize(|t| + 1);
        ghost var b := State();
        DumpBlock(t + [0]);
        WroteBoth(a, b, State(), Le(|t| + 1, 4), t + [0], writer);
    }

    /** One constant, with its type. */
    method DumpConstant(v: Value)
      modifies this
      ensures Wrote(old(State()), State(), ValueBytes(v), writer)
    {
      hide Wrote;
      ghost var a := State();
      DumpBlock([match v case Nil => 0 case Boolean(_) => 1 case Num(_) => 3 case Str(_) => 4]);
      ghost var b := State();
      match v
      case Nil =>
      case Boolean(x) => DumpBlock([x]); WroteBoth(a, b, State(), [1], [x], writer);
      case Num(n) => DumpBlock(n); WroteBoth(a, b, State(), [3], n, writer);
      case Str(s) => DumpString(s); WroteBoth(a, b, State(), [4], StringBytes(s), writer);
    }

    method DumpCode(code: seq<Word>)
      modifies this
      ensures Wrote(old(State()), State(), Counted(code, WordBytes), writer)
    {
      hide Wrote;
      ghost var a := State();
      DumpSize(|code|);
      ghost var b := State();
      DumpBlock(Many(code, WordBytes));
      WroteBoth(a, b, State(), Le(|code|, 4), Many(code, WordBytes), writer);
    }

    /** The first loop of DumpConstants. */
    method DumpConstants(k: seq<Value>)
      modifies this
      ensures Wrote(old(State()), State(), Counted(k, ValueBytes), writer)
    {
      hide Wrote, ValueBytes;
      ghost var a := State();
      DumpSize(|k|);
      ghost var b := State();
      WroteNothing(b, writer);
      assert k[..0] == [];
      for i := 0 to |k|
        invariant Wrote(b, State(), Many(k[..i], ValueBytes), writer)
      {
        ghost var c := State();
        DumpConstant(k[i]);
        WroteBoth(b, c, State(), Many(k[..i], ValueBytes), ValueBytes(k[i]), writer);
        assert k[..i + 1][..i] == k[..i];
      }
      assert k[..|k|] == k;
      WroteBoth(a, b, State(), Le(|k|, 4), Many(k, ValueBytes), writer);
    }

    /** The second loop of DumpConstants. */
    method DumpProtos(ps: seq<Proto>, source: Option<Text>)
      modifies this
      ensures Wrote(old(State()), State(), Le(|ps|, 4) + Protos(ps, source, strip), writer)
      decreases ps, 0
    {
      hide Wrote, FunctionBytes;
      ghost var a := State();
      DumpSize(|ps|);
      ghost var b := State();
      WroteNothing(b, writer);
      assert ps[..0] == [];
      for i := 0 to |ps|
        invariant Wrote(b, State(), Protos(ps[..i], source, strip), writer)
      {
        ghost var c := State();
        DumpFunction(ps[i], source);
        WroteBoth(b, c, State(), Protos(ps[..i], source, strip), FunctionBytes(ps[i], source, strip), writer);
        assert ps[..i + 1][..i] == ps[..i];
      }
      assert ps[..|ps|] == ps;
      WroteBoth(a, b, State(), Le(|ps|, 4), Protos(ps, source, strip), writer);
    }

    method DumpLocVar(l: LocVar)
      modifies this
      ensures Wrote(old(State()), State(), LocVarBytes(l), writer)
    {
      hide Wrote;
      ghost var a := State();
      DumpString(l.varname);
      ghost var b := State();
      DumpInt(l.startpc);
      ghost var c := State();
      DumpInt(l.endpc);
      WroteBoth(b, c, State(), IntBytes(l.startpc), IntBytes(l.endpc), writer);
      WroteBoth(a, b, State(), StringBytes(l.varname), IntBytes(l.startpc) + IntBytes(l.endpc), writer);
    }

    method DumpLocVars(xs: seq<LocVar>)
      modifies this
      ensures Wrote(old(State()), State(), Counted(xs, LocVarBytes), writer)
    {
      hide Wrote, LocVarBytes;
      ghost var a := State();
      DumpSize(|xs|);
      ghost var b := State();
      WroteNothing(b, writer);
      assert xs[..0] == [];
      for i := 0 to |xs|
        invariant Wrote(b, State(), Many(xs[..i], LocVarBytes), writer)
      {
        ghost var c := State();
        DumpLocVar(xs[i]);
        WroteBoth(b, c, State(), Many(xs[..i], LocVarBytes), LocVarBytes(xs[i]), writer);
        assert xs[..i + 1][..i] == xs[..i];
      }
      assert xs[..|xs|] == xs;
      WroteBoth(a, b, State(), Le(|xs|, 4), Many(xs, LocVarBytes), writer);
    }

    method DumpUpvalues(xs: seq<Option<Text>>)
      modifies this
      ensures Wrote(old(State()), State(), Counted(xs, StringBytes), writer)
    {
      hide Wrote, StringBytes;
      ghost var a := State();
      DumpSize(|xs|);
      ghost var b := State();
      WroteNothing(b, writer);
      assert xs[..0] == [];
      for i := 0 to |xs|
        invariant Wrote(b, State(), Many(xs[..i], StringBytes), writer)
      {
        ghost var c := State();
        DumpString(xs[i]);
        WroteBoth(b, c, State(), Many(xs[..i], StringBytes), StringBytes(xs[i]), writer);
        assert xs[..i + 1][..i] == xs[..i];
      }
      assert xs[..|xs|] == xs;
      WroteBoth(a, b, State(), Le(|xs|, 4), Many(xs, StringBytes), writer);
    }

    method DumpLines(xs: seq<Int32>)
      modifies this
      ensures Wrote(old(State()), State(), Counted(xs, IntBytes), writer)
    {
      hide Wrote;
      ghost var a := State();
      DumpSize(|xs|);
      ghost var b := State();
      DumpBlock(Many(xs, IntBytes));
      WroteBoth(a, b, State(), Le(|xs|, 4), Many(xs, IntBytes), writer);
    }

    method DumpDebug(f: Proto)
      modifies this
      ensures Wrote(old(State()), State(), DebugBytes(f, strip), writer)
    {
      hide Wrote, Counted;
      var l, v, u := Debug(f.lineinfo, strip), Debug(f.locvars, strip), Debug(f.upvalues, strip);
      ghost var a := State();
      DumpLines(l);
      ghost var b := State();
      DumpLocVars(v);
      ghost var c := State();
      DumpUpvalues(u);
      WroteBoth(b, c, State(), Counted(v, LocVarBytes), Counted(u, StringBytes), writer);
      WroteBoth(a, b, State(), Counted(l, IntBytes), Counted(v, LocVarBytes) + Counted(u, StringBytes), writer);
    }

    /** The first lines of DumpFunction. */
    method DumpHead(f: Proto, p: Option<Text>)
      modifies this
      ensures Wrote(old(State()), State(), HeadBytes(f, p, strip), writer)
    {
      hide Wrote;
      ghost var a := State();
      DumpString(if f.source == p || strip then None else f.source);
      ghost var b := State();
      DumpInt(f.linedefined);
      ghost var c := State();
      DumpInt(f.lastlinedefined);
      ghost var d := State();
      DumpFour(f.nups, f.numparams, f.is_vararg, f.maxstacksize);
      ghost var four := [f.nups, f.numparams, f.is_vararg, f.maxstacksize];
      WroteBoth(c, d, State(), IntBytes(f.lastlinedefined), four, writer);
      WroteBoth(b, c, State(), IntBytes(f.linedefined), IntBytes(f.lastlinedefined) + four, writer);
      WroteBoth(a, b, State(), StringBytes(if f.source == p || strip then None else f.source), IntBytes(f.linedefined) + (IntBytes(f.lastlinedefined) + four), writer);
    }

    /** DumpChar, four times. */
    method DumpFour(w: byte, x: byte, y: byte, z: byte)
      modifies this
      ensures Wrote(old(State()), State(), [w, x, y, z], writer)
    {
      hide Wrote;
      ghost var a := State();
      DumpBlock([w]);
      ghost var b := State();
      DumpBlock([x]);
      WroteBoth(a, b, State(), [w], [x], writer);
      ghost var c := State();
      DumpBlock([y]);
      WroteBoth(a, c, State(), [w] + [x], [y], writer);
      ghost var d := State();
      DumpBlock([z]);
      WroteBoth(a, d, State(), [w] + [x] + [y], [z], writer);
      assert [w] + [x] + [y] + [z] == [w, x, y, z];
    }

    method DumpFunction(f: Proto, p: Option<Text>)
      modifies this
      ensures Wrote(old(State()), State(), FunctionBytes(f, p, strip), writer)
      decreases f, 1
    {
      hide Wrote, HeadBytes, Counted, Protos, DebugBytes;
      ghost var a := State();
      DumpHead(f, p);
      ghost var b := State();
      DumpCode(f.code);
      ghost var c := State();
      DumpConstants(f.k);
      ghost var d := State();
      DumpProtos(f.p, f.source);
      ghost var e := State();
      DumpDebug(f);
      ghost var k, ps, rest := Counted(f.k, ValueBytes), Le(|f.p|, 4) + Protos(f.p, f.source, strip), DebugBytes(f, strip);
      WroteBoth(d, e, State(), ps, rest, writer);
      WroteBoth(c, d, State(), k, ps + rest, writer);
      WroteBoth(b, c, State(), Counted(f.code, WordBytes), k + (ps + rest), writer);
      WroteBoth(a, b, State(), HeadBytes(f, p, strip), Counted(f.code, WordBytes) + (k + (ps + rest)), writer);
    }

    /** luaU_dump, from the header on. */
    method Dump(f: Proto)
      modifies this
      ensures Wrote(old(State()), State(), ChunkBytes(f, strip), writer)
    {
      hide Wrote, FunctionBytes;
      ghost var a := State();
      DumpBlock(HEADER);
      ghost var b := State();
      DumpFunction(f, None);
      WroteBoth(a, b, State(), HEADER, FunctionBytes(f, None, strip), writer);
    }
  }

  // ---------- loading ----------

  /** A loaded value, or the error that was thrown. */
  datatype Loaded<T> = Val(v: T) | Err(e: Error) {
    predicate IsFailure() { Err? }
    function PropagateFailure<U>(): Loaded<U>
      requires Err?
    {
      Err(e)
    }
    function Extract(): T
      requires Val?
    {
      v
    }
  }

  /** The result and the rest of the stream are what reading the bytes gives. */
  ghost predicate Reads<T>(r: Loaded<T>, input: seq<byte>, spec: Parsed<T>) {
    match spec case Got(v, rest) => r == Val(v) && input == rest case Bad(e) => r == Err(e)
  }

  class LoadState {
    var input: seq<byte>
    /** luaG_checkcode. */
    const check: Proto -> bool

    constructor (input: seq<byte>, check: Proto -> bool)
      ensures this.input == input && this.check == check
    {
      this.input := input;
      this.check := check;
    }

    method LoadBlock(n: nat) returns (r: Loaded<seq<byte>>)
      modifies this
      ensures Reads(r, input, ReadBlock(old(input), n))
    {
      if |input| < n { return Err(UnexpectedEnd); }
      r := Val(input[..n]);
      input := input[n..];
    }

    method LoadWord() returns (r: Loaded<Word>)
      modifies this
      ensures Reads(r, input, ReadWord(old(input)))
    {
      var s :- LoadBlock(4);
      UnLeBound(s);
      Pow4();
      r := Val(UnLe(s));
    }

    method LoadChar() returns (r: Loaded<byte>)
      modifies this
      ensures Reads(r, input, ReadChar(old(input)))
    {
      var s :- LoadBlock(1);
      r := Val(s[0]);
    }

    /** An element of lineinfo, which is not checked. */
    method LoadInt32() returns (r: Loaded<Int32>)
      modifies this
      ensures Reads(r, input, ReadInt32(old(input)))
    {
      var w :- LoadWord();
      r := Val(FromWord(w));
    }

    method LoadInt() returns (r: Loaded<Int32>)
      modifies this
      ensures Reads(r, input, ReadInt(old(input)))
    {
      var x :- LoadInt32();
      if x < 0 { return Err(BadInteger); }
      r := Val(x);
    }

    method LoadString() returns (r: Loaded<Option<Text>>)
      modifies this
      ensures Reads(r, input, ReadString(old(input)))
    {
      var size :- LoadWord();
      if size == 0 { return Val(None); }
      var s :- LoadBlock(size);
      r := Val(Some(s[..size - 1]));
    }

    method LoadConstant() returns (r: Loaded<Value>)
      modifies this
      ensures Reads(r, input, ReadValue(old(input)))
    {
      var t :- LoadChar();
      if t == 0 {
        r := Val(Nil);
      } else if t == 1 {
        var c :- LoadChar();
        r := Val(Boolean(c));
      } else if t == 3 {
        var n :- LoadBlock(8);
        r := Val(Num(n));
      } else if t == 4 {
        var s :- LoadString();
        r := Val(Str(s));
      } else {
        r := Err(BadConstant);
      }
    }

    method LoadLocVar() returns (r: Loaded<LocVar>)
      modifies this
      ensures Reads(r, input, ReadLocVar(old(input)))
    {
      hide ReadString, ReadInt;
      var name :- LoadString();
      var start :- LoadInt();
      var end :- LoadInt();
      r := Val(LocVar(name, start, end));
    }

    method LoadCode() returns (r: Loaded<seq<Word>>)
      modifies this
      ensures Reads(r, input, ReadCounted(old(input), ReadWord))
    {
      hide ReadWord, ReadInt;
      var n :- LoadInt();
      ghost var b := input;
      var code: seq<Word> := [];
      while |code| < n
        invariant |code| <= n && ReadMany(n, b, ReadWord, []) == ReadMany(n - |code|, input, ReadWord, code)
      {
        var x :- LoadWord();
        code := code + [x];
      }
      r := Val(code);
    }

    /** The first loop of LoadConstants. */
    method LoadConstants() returns (r: Loaded<seq<Value>>)
      modifies this
      ensures Reads(r, input, ReadCounted(old(input), ReadValue))
    {
      hide ReadValue, ReadInt;
      var n :- LoadInt();
      ghost var b := input;
      var k: seq<Value> := [];
      while |k| < n
        invariant |k| <= n && ReadMany(n, b, ReadValue, []) == ReadMany(n - |k|, input, ReadValue, k)
      {
        var x :- LoadConstant();
        k := k + [x];
      }
      r := Val(k);
    }

    method LoadLines() returns (r: Loaded<seq<Int32>>)
      modifies this
      ensures Reads(r, input, ReadCounted(old(input), ReadInt32))
    {
      hide ReadInt32;
      var n :- LoadInt();
      ghost var b := input;
      var xs: seq<Int32> := [];
      while |xs| < n
        invariant |xs| <= n && ReadMany(n, b, ReadInt32, []) == ReadMany(n - |xs|, input, ReadInt32, xs)
      {
        var x :- LoadInt32();
        xs := xs + [x];
      }
      r := Val(xs);
    }

    method LoadLocVars() returns (r: Loaded<seq<LocVar>>)
      modifies this
      ensures Reads(r, input, ReadCounted(old(input), ReadLocVar))
    {
      hide ReadLocVar, ReadInt;
      var n :- LoadInt();
      ghost var b := input;
      var xs: seq<LocVar> := [];
      while |xs| < n
        invariant |xs| <= n && ReadMany(n, b, ReadLocVar, []) == ReadMany(n - |xs|, input, ReadLocVar, xs)
      {
        var x :- LoadLocVar();
        xs := xs + [x];
      }
      r := Val(xs);
    }

    method LoadUpvalues() returns (r: Loaded<seq<Option<Text>>>)
      modifies this
      ensures Reads(r, input, ReadCounted(old(input), ReadString))
    {
      hide ReadString, ReadInt;
      var n :- LoadInt();
      ghost var b := input;
      var xs: seq<Option<Text>> := [];
      while |xs| < n
        invariant |xs| <= n && ReadMany(n, b, ReadString, []) == ReadMany(n - |xs|, input, ReadString, xs)
      {
        var x :- LoadString();
        xs := xs + [x];
      }
      r := Val(xs);
    }

    method LoadDebug(f: Proto) returns (r: Loaded<Proto>)
      modifies this
      ensures Reads(r, input, ReadDebug(f, old(input)))
    {
      hide ReadCounted;
      var lineinfo :- LoadLines();
      var locvars :- LoadLocVars();
      var upvalues :- LoadUpvalues();
      r := Val(f.(lineinfo := lineinfo, locvars := locvars, upvalues := upvalues));
    }

    method LoadHead(p: Option<Text>) returns (r: Loaded<Proto>)
      modifies this
      ensures Reads(r, input, ReadHead(old(input), p))
    {
      hide ReadCounted, ReadInt, ReadString, ReadChar;
      var source :- LoadString();
      if source.None? { source := p; }
      var linedefined :- LoadInt();
      var lastlinedefined :- LoadInt();
      var nups :- LoadChar();
      var numparams :- LoadChar();
      var is_vararg :- LoadChar();
      var maxstacksize :- LoadChar();
      var code :- LoadCode();
      var k :- LoadConstants();
      r := Val(Proto(source, linedefined, lastlinedefined, nups, numparams, is_vararg, maxstacksize, code, k, [], [], [], []));
    }

    method LoadFunction(p: Option<Text>) returns (r: Loaded<Proto>)
      modifies this
      ensures Reads(r, input, ReadFunction(old(input), p, check))
      decreases |input|, 0
    {
      hide ReadHead, ReadDebug, ReadProtos;
      var f :- LoadHead(p);
      var ps :- LoadProtos(f.source);
      var g :- LoadDebug(f.(p := ps));
      if !check(g) { return Err(BadCode); }
      r := Val(g);
    }

    /** The second loop of LoadConstants. */
    method LoadProtos(source: Option<Text>) returns (r: Loaded<seq<Proto>>)
      modifies this
      ensures match ReadInt(old(input)) case Bad(e) => r == Err(e) case Got(n, b) => Reads(r, input, ReadProtos(n, b, source, check, []))
      decreases |input|, 1
    {
      hide ReadFunction, ReadInt;
      var n :- LoadInt();
      ghost var b := input;
      var ps: seq<Proto> := [];
      while |ps| < n
        invariant |ps| <= n && |input| <= |b| < |old(input)|
        invariant ReadProtos(n, b, source, check, []) == ReadProtos(n - |ps|, input, source, check, ps)
      {
        var f :- LoadFunction(source);
        ps := ps + [f];
      }
      r := Val(ps);
    }

    /** luaU_undump. */
    method Undump() returns (r: Loaded<Proto>)
      modifies this
      ensures Reads(r, input, ReadChunk(old(input), check))
    {
      hide ReadFunction;
      var h :- LoadBlock(|HEADER|);
      if h != HEADER { return Err(BadHeader); }
      r := LoadFunction(UNKNOWN);
    }
  }

  /** Dumping with a writer that does not fail, and loading what it has taken. */
  method DumpAndLoad(f: Proto, writer: Writer, check: Proto -> bool) returns (r: Loaded<Proto>)
    requires Fits(f) && Accepted(Reloaded(f, None, UNKNOWN, false), check)
    requires forall n: nat, b: seq<byte> :: writer(n, b) == 0
    ensures r == Val(f) <==> AllNamed(f)
  {
    hide Accepted, Fits, Reloaded, AllNamed, FunctionBytes, ReadFunction;
    var d := new DumpState(writer, false);
    ghost var before := d.State();
    d.Dump(f);
    TakenPrefix(before, d.State(), ChunkBytes(f, false), writer);
    assert d.out == ChunkBytes(f, false) by { assert [] + ChunkBytes(f, false) == ChunkBytes(f, false); }
    var l := new LoadState(d.out, check);
    r := l.Undump();
    RoundTripExact(f, check);
    ChunkBack(f, false, check, []);
    assert d.out + [] == d.out;
  }
}
