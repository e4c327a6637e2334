/** The registry of named hash contexts and the one-shot hashes of src/crypt_hashes.c. */
module CryptHashes {
  import opened Basics
  import opened Streaming
  import Md5
  import Sha
  import Whirlpool

  const MAX_N_CTX: nat := 32

  /** The compression functions of the four algorithms. */
  datatype Rounds = Rounds(md5: (Md5.State, seq<byte>) -> Md5.State,
                           sha1: (Sha.State1, seq<byte>) -> Sha.State1,
                           sha256: (Sha.State256, seq<byte>) -> Sha.State256,
                           whirlpool: (Whirlpool.State, seq<byte>) -> Whirlpool.State)

  datatype Kind = MD5 | SHA1 | SHA256 | WHIRLPOOL

  /** A hash context with its type tag. */
  datatype HashCtx =
    | Md5Ctx(c0: Ctx<Md5.State>)
    | Sha1Ctx(c1: Ctx<Sha.State1>)
    | Sha256Ctx(c2: Ctx<Sha.State256>)
    | WhirlpoolCtx(c3: Ctx<Whirlpool.State>)
  {
    function Type(): Kind {
      match this
      case Md5Ctx(_) => MD5
      case Sha1Ctx(_) => SHA1
      case Sha256Ctx(_) => SHA256
      case WhirlpoolCtx(_) => WHIRLPOOL
    }
  }

  function Words1(s: Sha.State1): seq<Word> { s }

  function Words256(s: Sha.State256): seq<Word> { s }

  function InitCtx(kind: Kind): HashCtx {
    match kind
    case MD5 => Md5Ctx(Ctx(Md5.IV, 0, []))
    case SHA1 => Sha1Ctx(Ctx(Sha.IV1, 0, []))
    case SHA256 => Sha256Ctx(Ctx(Sha.IV256, 0, []))
    case WHIRLPOOL => WhirlpoolCtx(Ctx(Whirlpool.IV, 0, []))
  }

  function UpdateCtx(r: Rounds, c: HashCtx, m: seq<byte>): HashCtx {
    match c
    case Md5Ctx(x) => Md5Ctx(Absorb(r.md5, Bits, x, m))
    case Sha1Ctx(x) => Sha1Ctx(Absorb(r.sha1, Bytes, x, m))
    case Sha256Ctx(x) => Sha256Ctx(Absorb(r.sha256, Bytes, x, m))
    case WhirlpoolCtx(x) => WhirlpoolCtx(Absorb(r.whirlpool, Bytes, x, m))
  }

  function FinalCtx(r: Rounds, c: HashCtx): seq<byte> {
    match c
    case Md5Ctx(x) => Md5.Result(r.md5, x)
    case Sha1Ctx(x) => Sha.Result(r.sha1, Words1, x)
    case Sha256Ctx(x) => Sha.Result(r.sha256, Words256, x)
    case WhirlpoolCtx(x) => Whirlpool.Result(r.whirlpool, x)
  }

  /** The length of a buffer passes through a 32-bit parameter on its way into an update. */
  function Passed(data: seq<byte>): (p: seq<byte>)
    ensures |p| < 0x1_0000_0000
  {
    data[..|data| % 0x1_0000_0000]
  }

  // ----- the reference: what a message hashes to -----

  /** The length field of each algorithm for a message of `n` bytes. */
  function LengthField(kind: Kind, n: nat): (bits: seq<byte>)
    ensures |bits| <= 64
  {
    match kind
    case MD5 => LittleEndian(8 * n, FIELD64)
    case SHA1 => BigEndian(8 * n, FIELD64)
    case SHA256 => BigEndian(8 * n, FIELD64)
    case WHIRLPOOL => BigEndian(8 * n, Whirlpool.FIELD256)
  }

  /** The blocks an algorithm compresses for a message. */
  function Blocks(kind: Kind, msg: seq<byte>): seq<byte> {
    Padded(msg, LengthField(kind, |msg|))
  }

  /** What a message hashes to: the blocks compressed one by one, and the state written as bytes. */
  function Standard(r: Rounds, kind: Kind, msg: seq<byte>): seq<byte> {
    var blocks := Blocks(kind, msg);
    match kind
    case MD5 => WordsLittleEndian(Fold(r.md5, Md5.IV, blocks))
    case SHA1 => WordsBigEndian(Fold(r.sha1, Sha.IV1, blocks))
    case SHA256 => WordsBigEndian(Fold(r.sha256, Sha.IV256, blocks))
    case WHIRLPOOL => Fold(r.whirlpool, Whirlpool.IV, blocks)
  }

  /** `c` is a context that was given `msg` since its init. */
  ghost predicate Given(r: Rounds, c: HashCtx, msg: seq<byte>) {
    match c
    case Md5Ctx(x) => Holds(r.md5, Bits, Md5.IV, x, msg)
    case Sha1Ctx(x) => Holds(r.sha1, Bytes, Sha.IV1, x, msg)
    case Sha256Ctx(x) => Holds(r.sha256, Bytes, Sha.IV256, x, msg)
    case WhirlpoolCtx(x) => Holds(r.whirlpool, Bytes, Whirlpool.IV, x, msg)
  }

  lemma InitGiven(r: Rounds, kind: Kind)
    ensures Given(r, InitCtx(kind), []) && InitCtx(kind).Type() == kind
  {
    InitHolds(r.md5, Bits, Md5.IV);
    InitHolds(r.sha1, Bytes, Sha.IV1);
    InitHolds(r.sha256, Bytes, Sha.IV256);
    InitHolds(r.whirlpool, Bytes, Whirlpool.IV);
  }

  lemma UpdateGiven(r: Rounds, c: HashCtx, msg: seq<byte>, data: seq<byte>)
    requires Given(r, c, msg)
    ensures Given(r, UpdateCtx(r, c, data), msg + data) && UpdateCtx(r, c, data).Type() == c.Type()
  {
    match c {
      case Md5Ctx(x) => AbsorbHolds(r.md5, Bits, Md5.IV, x, msg, data);
      case Sha1Ctx(x) => AbsorbHolds(r.sha1, Bytes, Sha.IV1, x, msg, data);
      case Sha256Ctx(x) => AbsorbHolds(r.sha256, Bytes, Sha.IV256, x, msg, data);
      case WhirlpoolCtx(x) => AbsorbHolds(r.whirlpool, Bytes, Whirlpool.IV, x, msg, data);
    }
  }

  lemma FinalGiven(r: Rounds, c: HashCtx, msg: seq<byte>)
    requires Given(r, c, msg)
    requires c.WhirlpoolCtx? ==> |msg| < 0x1_0000_0000_0000_0000
    ensures FinalCtx(r, c) == Standard(r, c.Type(), msg)
  {
    match c {
      case Md5Ctx(x) => Md5.ResultIsDigest(r.md5, x, msg);
      case Sha1Ctx(x) => Sha.ResultIsDigest(r.sha1, Words1, Sha.IV1, x, msg);
      case Sha256Ctx(x) => Sha.ResultIsDigest(r.sha256, Words256, Sha.IV256, x, msg);
      case WhirlpoolCtx(x) => Whirlpool.ResultIsDigest(r.whirlpool, x, msg);
    }
  }

  /** The one-shot hash (`octstr_md5` and its siblings): init, one update, final. */
  function OneShot(r: Rounds, kind: Kind, src: seq<byte>): seq<byte> {
    FinalCtx(r, UpdateCtx(r, InitCtx(kind), Passed(src)))
  }

  lemma OneUpdate(r: Rounds, kind: Kind, msg: seq<byte>)
    requires |msg| < 0x1_0000_0000_0000_0000
    ensures FinalCtx(r, UpdateCtx(r, InitCtx(kind), msg)) == Standard(r, kind, msg)
  {
    var c := InitCtx(kind);
    InitGiven(r, kind);
    UpdateGiven(r, c, [], msg);
    assert [] + msg == msg;
    FinalGiven(r, UpdateCtx(r, c, msg), msg);
  }

  lemma PassedWhole(data: seq<byte>)
    ensures Passed(data) == data <==> |data| < 0x1_0000_0000
  {
  }

  /** A one-shot hash is the standard digest of as much of the source as fits a 32-bit length. */
  lemma OneShotIsStandard(r: Rounds, kind: Kind, src: seq<byte>)
    ensures OneShot(r, kind, src) == Standard(r, kind, Passed(src))
    ensures |src| < 0x1_0000_0000 ==> OneShot(r, kind, src) == Standard(r, kind, src)
  {
    OneUpdate(r, kind, Passed(src));
    PassedWhole(src);
  }

  /** The one-shot hash compresses the blocks of its source exactly when the length of it fits 32 bits. */
  lemma OneShotBlocksExact(kind: Kind, src: seq<byte>)
    ensures Blocks(kind, Passed(src)) == Blocks(kind, src) <==> |src| < 0x1_0000_0000
  {
    if |src| >= 0x1_0000_0000 {
      assert |Blocks(kind, Passed(src))| <= |Passed(src)| + 128 < |src|;
    } else {
      assert Passed(src) == src;
    }
  }

  // ----- the registry -----

  datatype Op =
    | Init(kind: Kind, name: string)
    | Update(kind: Kind, name: string, data: seq<byte>)
    | Finalize(kind: Kind, name: string)

  /** The returned code, and the digest a successful finalize writes. */
  datatype Reply = Reply(code: int, out: seq<byte>)

  /** The registry as plain data: the table and its own count of entries. */
  datatype Contents = Contents(table: map<string, HashCtx>, count: int)

  const EMPTY := Contents(map[], 0)

  /** One call.  An init past the limit reports success but registers nothing. */
  function Step(r: Rounds, s: Contents, op: Op): (Contents, Reply) {
    match op
    case Init(kind, name) =>
      if name in s.table then (s, Reply(1, []))
      else if s.count + 1 > MAX_N_CTX then (s, Reply(0, []))
      else (Contents(s.table[name := InitCtx(kind)], s.count + 1), Reply(0, []))
    case Update(kind, name, data) =>
      if name !in s.table || s.table[name].Type() != kind then (s, Reply(1, []))
      else (s.(table := s.table[name := UpdateCtx(r, s.table[name], Passed(data))]), Reply(0, []))
    case Finalize(kind, name) =>
      if name !in s.table || s.table[name].Type() != kind then (s, Reply(1, []))
      else (Contents(s.table - {name}, s.count - 1), Reply(0, FinalCtx(r, s.table[name])))
  }

  function Run(r: Rounds, s: Contents, ops: seq<Op>): (res: (Contents, seq<Reply>))
    ensures |res.1| == |ops|
    decreases |ops|
  {
    if ops == [] then (s, [])
    else
      var (s1, reply) := Step(r, s, ops[0]);
      var (s2, replies) := Run(r, s1, ops[1..]);
      (s2, [reply] + replies)
  }

  // ----- the reference: a log of what was given to each live name -----

  datatype Session = Session(kind: Kind, msg: seq<byte>)

  /** What a call does to the log, without any hash context: a finalize answers the digest of the
      whole message given to its name since the init. */
  function LogStep(r: Rounds, log: map<string, Session>, op: Op): (map<string, Session>, Reply) {
    match op
    case Init(kind, name) =>
      if name in log then (log, Reply(1, []))
      else if |log| == MAX_N_CTX then (log, Reply(0, []))
      else (log[name := Session(kind, [])], Reply(0, []))
    case Update(kind, name, data) =>
      if name !in log || log[name].kind != kind then (log, Reply(1, []))
      else (log[name := Session(kind, log[name].msg + Passed(data))], Reply(0, []))
    case Finalize(kind, name) =>
      if name !in log || log[name].kind != kind then (log, Reply(1, []))
      else (log - {name}, Reply(0, Standard(r, kind, log[name].msg)))
  }

  function RunLog(r: Rounds, log: map<string, Session>, ops: seq<Op>): (res: (map<string, Session>, seq<Reply>))
    ensures |res.1| == |ops|
    decreases |ops|
  {
    if ops == [] then (log, [])
    else
      var (l1, reply) := LogStep(r, log, ops[0]);
      var (l2, replies) := RunLog(r, l1, ops[1..]);
      (l2, [reply] + replies)
  }

  /** The registry holds exactly the contexts of the log, counts them, and stays within its limit. */
  ghost predicate Matches(r: Rounds, s: Contents, log: map<string, Session>) {
    && s.table.Keys == log.Keys
    && s.count == |log| <= MAX_N_CTX
    && (forall n :: n in log ==> s.table[n].Type() == log[n].kind && Given(r, s.table[n], log[n].msg))
  }

  /** A run that no Whirlpool session could make overflow its byte counter. */
  ghost predicate InRange(log: map<string, Session>, ops: seq<Op>) {
    forall n :: n in log && log[n].kind == WHIRLPOOL ==> |log[n].msg| + Volume(ops) < 0x1_0000_0000_0000_0000
  }

  /** An upper bound on the bytes a run can give to one context. */
  function Volume(ops: seq<Op>): nat
    decreases |ops|
  {
    if ops == [] then 0
    else (match ops[0] case Update(_, _, data) => |Passed(data)| case _ => 0) + Volume(ops[1..])
  }

  lemma UpdateMatches(r: Rounds, s: Contents, log: map<string, Session>, kind: Kind, name: string, data: seq<byte>)
    requires Matches(r, s, log)
    ensures Matches(r, Step(r, s, Update(kind, name, data)).0, LogStep(r, log, Update(kind, name, data)).0)
  {
    if name in log && log[name].kind == kind {
      UpdateGiven(r, s.table[name], log[name].msg, Passed(data));
      var log' := log[name := Session(kind, log[name].msg + Passed(data))];
      assert log'.Keys == log.Keys && |log'.Keys| == |log.Keys|;
    }
  }

  lemma FinalizeMatches(r: Rounds, s: Contents, log: map<string, Session>, kind: Kind, name: string)
    requires Matches(r, s, log)
    ensures Matches(r, Step(r, s, Finalize(kind, name)).0, LogStep(r, log, Finalize(kind, name)).0)
  {
    if name in log && log[name].kind == kind {
      assert (log - {name}).Keys == log.Keys - {name};
      assert |(log - {name}).Keys| == |log.Keys| - 1;
    }
  }

  lemma StepMatches(r: Rounds, s: Contents, log: map<string, Session>, op: Op)
    requires Matches(r, s, log)
    requires op.Finalize? && op.name in log && log[op.name].kind == WHIRLPOOL ==>
               |log[op.name].msg| < 0x1_0000_0000_0000_0000
    ensures Step(r, s, op).1 == LogStep(r, log, op).1
    ensures Matches(r, Step(r, s, op).0, LogStep(r, log, op).0)
  {
    match op {
      case Init(kind, name) => InitGiven(r, kind);
      case Update(kind, name, data) => UpdateMatches(r, s, log, kind, name, data);
      case Finalize(kind, name) =>
        FinalizeMatches(r, s, log, kind, name);
        if name in log {
          FinalGiven(r, s.table[name], log[name].msg);
        }
    }
  }

  /** Any interleaving of calls on any names answers what the log answers: each finalize returns the
      digest of the chunks its own name was given, whatever happened to other names meanwhile. */
  lemma {:induction false} RunMatches(r: Rounds, s: Contents, log: map<string, Session>, ops: seq<Op>)
    requires Matches(r, s, log)
    requires InRange(log, ops) && Volume(ops) < 0x1_0000_0000_0000_0000
    ensures Run(r, s, ops).1 == RunLog(r, log, ops).1
    ensures Matches(r, Run(r, s, ops).0, RunLog(r, log, ops).0)
    decreases |ops|
  {
    if ops != [] {
      StepMatches(r, s, log, ops[0]);
      RunMatches(r, Step(r, s, ops[0]).0, LogStep(r, log, ops[0]).0, ops[1..]);
    }
  }

  /** From the empty registry. */
  lemma RegistryIsLog(r: Rounds, ops: seq<Op>)
    requires Volume(ops) < 0x1_0000_0000_0000_0000
    ensures Run(r, EMPTY, ops).1 == RunLog(r, map[], ops).1
    ensures var s := Run(r, EMPTY, ops).0;
            s.count == |s.table| <= MAX_N_CTX && s.table.Keys == RunLog(r, map[], ops).0.Keys
  {
    RunMatches(r, EMPTY, map[], ops);
    var s := Run(r, EMPTY, ops).0;
    assert |s.table.Keys| == |RunLog(r, map[], ops).0.Keys|;
  }

  /** Calls on other names do not disturb the log of a name. */
  lemma {:induction false} OtherNamesUndisturbed(r: Rounds, log: map<string, Session>, ops: seq<Op>, name: string)
    requires forall i :: 0 <= i < |ops| ==> ops[i].name != name
    ensures name in RunLog(r, log, ops).0 <==> name in log
    ensures name in log ==> RunLog(r, log, ops).0[name] == log[name]
    decreases |ops|
  {
    if ops != [] {
      assert ops[0].name != name;
      OtherNamesUndisturbed(r, LogStep(r, log, ops[0]).0, ops[1..], name);
    }
  }

  /** Its count is the number of live contexts and within the limit, whatever was called. */
  lemma {:induction false} RunCounts(r: Rounds, s: Contents, ops: seq<Op>)
    requires s.count == |s.table| <= MAX_N_CTX
    ensures Run(r, s, ops).0.count == |Run(r, s, ops).0.table| <= MAX_N_CTX
    decreases |ops|
  {
    if ops != [] {
      var s1 := Step(r, s, ops[0]).0;
      if ops[0].Finalize? && s1 != s {
        assert s.table == s1.table[ops[0].name := s.table[ops[0].name]];
      }
      RunCounts(r, s1, ops[1..]);
    }
  }

  /** After any run an init of a name that is not live answers success, and it makes the name live exactly
      when fewer than 32 contexts are. */
  lemma InitRegisters(r: Rounds, ops: seq<Op>, kind: Kind, name: string)
    requires name !in Run(r, EMPTY, ops).0.table
    ensures var s := Run(r, EMPTY, ops).0;
            var (s1, reply) := Step(r, s, Init(kind, name));
            && reply.code == 0
            && (name in s1.table <==> |s.table| < MAX_N_CTX)
            && (|s.table| == MAX_N_CTX ==> s1 == s)
  {
    RunCounts(r, EMPTY, ops);
  }

  class Registry {
    const rounds: Rounds
    var table: map<string, HashCtx>
    var count: int

    function State(): Contents
      reads this
    {
      Contents(table, count)
    }

    /** `hash_ctx_table_init`. */
    constructor (rounds: Rounds)
      ensures State() == EMPTY && this.rounds == rounds
    {
      this.rounds := rounds;
      table, count := map[], 0;
    }

    /** `hash_ctx_table_insert`; the name is known not to be taken. */
    method Insert(name: string, item: HashCtx) returns (ok: bool)
      requires name !in table
      modifies this
      ensures ok == (old(count) < MAX_N_CTX)
      ensures State() == if ok then Contents(old(table)[name := item], old(count) + 1) else old(State())
    {
      if count + 1 > MAX_N_CTX {
        return false;
      }
      table := table[name := item];
      count := count + 1;
      return true;
    }

    /** `generic_hash_init`: the result of the insertion is not looked at. */
    method HashInit(kind: Kind, name: string) returns (code: int)
      modifies this
      ensures (State(), Reply(code, [])) == Step(rounds, old(State()), Init(kind, name))
    {
      if name in table {
        return 1;
      }
      var _ := Insert(name, InitCtx(kind));
      return 0;
    }

    /** `generic_hash_update`. */
    method HashUpdate(kind: Kind, name: string, data: seq<byte>) returns (code: int)
      modifies this
      ensures (State(), Reply(code, [])) == Step(rounds, old(State()), Update(kind, name, data))
    {
      if name !in table {
        return 1;
      }
      if table[name].Type() != kind {
        return 1;
      }
      table := table[name := UpdateCtx(rounds, table[name], Passed(data))];
      return 0;
    }

    /** `generic_hash_finalize`. */
    method HashFinalize(kind: Kind, name: string) returns (code: int, out: seq<byte>)
      modifies this
      ensures (State(), Reply(code, out)) == Step(rounds, old(State()), Finalize(kind, name))
    {
      if name !in table {
        return 1, [];
      }
      if table[name].Type() != kind {
        return 1, [];
      }
      out := FinalCtx(rounds, table[name]);
      table := table - {name};
      count := count - 1;
      return 0, out;
    }
  }
}
