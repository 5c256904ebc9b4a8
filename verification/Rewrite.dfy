/**
 What is logged for a write command. Relative expiry times become absolute ones, so
 that replaying the log later or on another node sets the same expiry; other commands
 are logged as given.
 */
module Rewrite {
  import BinlogFormat
  import opened Options
  import opened ReplicatedLog
  import opened Resp

  const INT32_MIN: int := -0x8000_0000
  const INT32_MAX: int := 0x7FFF_FFFF

  /** Conversion to a signed 32-bit integer. */
  function Trunc32(n: int): (r: int)
    ensures INT32_MIN <= r <= INT32_MAX && (INT32_MIN <= n <= INT32_MAX <==> r == n)
    ensures (n - r) % 0x1_0000_0000 == 0
  {
    (n + 0x8000_0000) % 0x1_0000_0000 - 0x8000_0000
  }

  function Trunc64(n: int): (r: int)
    ensures INT64_MIN <= r <= INT64_MAX && (INT64_MIN <= n <= INT64_MAX <==> r == n)
    ensures (n - r) % 0x1_0000_0000_0000_0000 == 0
  {
    (n + 0x8000_0000_0000_0000) % 0x1_0000_0000_0000_0000 - 0x8000_0000_0000_0000
  }

  /** Milliseconds to seconds; division truncates towards zero. */
  function Seconds(ms: int): (sec: int)
    ensures ms >= 0 ==> 1000 * sec <= ms < 1000 * (sec + 1)
    ensures ms <= 0 ==> 1000 * (sec - 1) < ms <= 1000 * sec
  {
    if ms < 0 then -(-ms / 1000) else ms / 1000
  }

  function LowerChar(c: char): char {
    if 'A' <= c <= 'Z' then c - 'A' + 'a' else c
  }

  function Lower(s: string): (r: string)
    ensures |r| == |s|
  {
    if s == [] then [] else [LowerChar(s[0])] + Lower(s[1..])
  }

  predicate IsUpper(c: char) { 'A' <= c <= 'Z' }

  /** The same letter, in either case. */
  predicate SameLetter(a: char, b: char) {
    || a == b
    || (IsUpper(a) && b as int == a as int + 32)
    || (IsUpper(b) && a as int == b as int + 32)
  }

  /** Names and options are compared without regard to case. */
  lemma {:induction false} CaseIgnored(a: string, b: string)
    ensures Lower(a) == Lower(b) <==> |a| == |b| && forall i | 0 <= i < |a| :: SameLetter(a[i], b[i])
  {
    if a != [] && b != [] {
      CaseIgnored(a[1..], b[1..]);
      assert LowerChar(a[0]) == LowerChar(b[0]) <==> SameLetter(a[0], b[0]);
      assert Lower(a)[0] == LowerChar(a[0]) && Lower(a)[1..] == Lower(a[1..]);
      assert Lower(b)[0] == LowerChar(b[0]) && Lower(b)[1..] == Lower(b[1..]);
      if |a| == |b| && forall i | 0 <= i < |a| :: SameLetter(a[i], b[i]) {
        assert forall i | 0 <= i < |a| - 1 :: SameLetter(a[1..][i], b[1..][i]);
      }
    }
  }

  datatype Name = SET | SETNX | SETEX | PSETEX | PKSETEXAT | EXPIRE | PEXPIRE | EXPIREAT | PEXPIREAT | FLUSHALL | FLUSHDB | PADDING | OTHER

  /** Commands with a rewriting or a check of their own, as the command table names them. */
  function NameAt(i: nat): (string, Name)
    requires i < 12
  {
    if i < 4 then (if i == 0 then ("set", SET) else if i == 1 then ("setnx", SETNX) else if i == 2 then ("setex", SETEX) else ("psetex", PSETEX))
    else if i < 8 then
      (if i == 4 then ("pksetexat", PKSETEXAT) else if i == 5 then ("expire", EXPIRE)
       else if i == 6 then ("pexpire", PEXPIRE) else ("expireat", EXPIREAT))
    else (if i == 8 then ("pexpireat", PEXPIREAT) else if i == 9 then ("flushall", FLUSHALL)
          else if i == 10 then ("flushdb", FLUSHDB) else ("padding", PADDING))
  }

  function Lookup(name: string, i: nat): Name
    decreases 12 - i
  {
    if i >= 12 then OTHER else if NameAt(i).0 == name then NameAt(i).1 else Lookup(name, i + 1)
  }

  function NameOf(s: string): Name { Lookup(Lower(s), 0) }

  lemma {:induction false} LowerSame(s: string)
    requires forall i | 0 <= i < |s| :: !('A' <= s[i] <= 'Z')
    ensures Lower(s) == s
  {
    if s != [] {
      LowerSame(s[1..]);
    }
  }

  /** The table is searched to the first equal name. */
  lemma {:induction false} LookupFinds(name: string, i: nat, k: nat)
    requires i <= k < 12 && NameAt(k).0 == name && forall j | i <= j < k :: NameAt(j).0 != name
    ensures Lookup(name, i) == NameAt(k).1
    decreases k - i
  {
    if i < k {
      LookupFinds(name, i + 1, k);
    }
  }

  lemma PkSetexAtName()
    ensures NameOf("pksetexat") == PKSETEXAT
  {
    LowerSame("pksetexat");
    LookupFinds("pksetexat", 0, 4);
  }

  lemma ExpireatName()
    ensures NameOf("expireat") == EXPIREAT
  {
    LowerSame("expireat");
    LookupFinds("expireat", 0, 7);
  }

  lemma SetnxName()
    ensures NameOf("setnx") == SETNX
  {
    LowerSame("setnx");
    LookupFinds("setnx", 0, 1);
  }

  lemma FlushdbName()
    ensures NameOf("flushdb") == FLUSHDB
  {
    LowerSame("flushdb");
    LookupFinds("flushdb", 0, 10);
  }

  lemma PaddingName()
    ensures NameOf("padding") == PADDING
  {
    LowerSame("padding");
    LookupFinds("padding", 0, 11);
  }

  /* ---------- parsing a command ---------- */

  datatype Condition = NONE | NX | XX | VX | EXORPX

  datatype Command = Command(argv: seq<string>, kind: Kind)

  datatype Kind =
    | Set(condition: Condition, sec: int)
    | Setnx
    | Setex(sec: int)
    | Psetex(ms: int)
    | PkSetexAt(at: int)
    | Expire(sec: int)
    | Pexpire(ms: int)
    | Expireat(at: int)
    | Pexpireat(ms: int)
    | Flushall
    | Padding
    | Other

  /** The options of SET from argument `i` on. A time given with NX, XX or VX, before or
      after it, does not make the command an EX or PX one. */
  function SetOptions(argv: seq<string>, i: nat, condition: Condition, sec: int): (r: Option<Kind>)
    requires i <= |argv|
    ensures r.Some? ==> r.value.Set?
    decreases |argv| - i
  {
    if i == |argv| then Some(Set(condition, sec))
    else
      var opt := Lower(argv[i]);
      if opt == "xx" then SetOptions(argv, i + 1, XX, sec)
      else if opt == "nx" then SetOptions(argv, i + 1, NX, sec)
      else if opt == "vx" then (if i + 1 == |argv| then None else SetOptions(argv, i + 2, VX, sec))
      else if opt == "ex" || opt == "px" then
        if i + 1 == |argv| then None
        else
          match ParseInt(argv[i + 1])
          case None => None
          case Some(n) =>
            if n <= 0 then None
            else SetOptions(argv, i + 2, if condition == NONE then EXORPX else condition, if opt == "px" then n / 1000 else n)
      else None
  }

  /* ---------- option lists ---------- */

  datatype Opt = OptNX | OptXX | OptVX(target: string) | OptEX(n: int) | OptPX(n: int) {
    predicate IsTime() { OptEX? || OptPX? }

    function Condition(): Condition {
      match this
      case OptNX => NX
      case OptXX => XX
      case OptVX(_) => VX
      case _ => EXORPX
    }

    /** Arguments an option takes up. */
    function Width(): nat { if OptNX? || OptXX? then 1 else 2 }

    /** `argv` has the option at `i`; a time is a positive number. */
    predicate At(argv: seq<string>, i: nat)
      requires i + Width() <= |argv|
    {
      match this
      case OptNX => Lower(argv[i]) == "nx"
      case OptXX => Lower(argv[i]) == "xx"
      case OptVX(target) => Lower(argv[i]) == "vx" && argv[i + 1] == target
      case OptEX(n) => Lower(argv[i]) == "ex" && ParseInt(argv[i + 1]) == Some(n) && n > 0
      case OptPX(n) => Lower(argv[i]) == "px" && ParseInt(argv[i + 1]) == Some(n) && n > 0
    }
  }

  /** The arguments from `i` up to `k` are these options, one after the other. */
  predicate Lists(argv: seq<string>, i: nat, k: nat, opts: seq<Opt>)
    requires k <= |argv|
    decreases |opts|
  {
    if opts == [] then i == k
    else i + opts[0].Width() <= k && opts[0].At(argv, i) && Lists(argv, i + opts[0].Width(), k, opts[1..])
  }

  /** At `k` there is no option: it is unknown, lacks its argument, or is a time that is
      no positive number. */
  predicate Malformed(argv: seq<string>, k: nat)
    requires k < |argv|
  {
    var opt := Lower(argv[k]);
    var timed := opt == "ex" || opt == "px";
    || !(opt == "nx" || opt == "xx" || opt == "vx" || timed)
    || ((opt == "vx" || timed) && k + 1 == |argv|)
    || (timed && k + 1 < |argv| && (ParseInt(argv[k + 1]).None? || ParseInt(argv[k + 1]).value <= 0))
  }

  /** Option `j` is the last that sets a condition. */
  ghost predicate LastCondition(opts: seq<Opt>, j: int) {
    0 <= j < |opts| && !opts[j].IsTime() && forall k | j < k < |opts| :: opts[k].IsTime()
  }

  /** Option `j` is the last that gives a time. */
  ghost predicate LastTime(opts: seq<Opt>, j: int) {
    0 <= j < |opts| && opts[j].IsTime() && forall k | j < k < |opts| :: !opts[k].IsTime()
  }

  /** What the options say, after a condition and a time there may have been already: the
      last NX, XX or VX decides, and without any a time makes it EX or PX; the last time
      counts, in whole seconds. */
  ghost predicate Says(opts: seq<Opt>, condition: Condition, sec: int, r: Kind) {
    && r.Set?
    && (forall j | LastCondition(opts, j) :: r.condition == opts[j].Condition())
    && ((forall j | 0 <= j < |opts| :: opts[j].IsTime()) ==>
          r.condition == if condition == NONE && opts != [] then EXORPX else condition)
    && (forall j | LastTime(opts, j) ::
          if opts[j].OptEX? then r.sec == opts[j].n else 1000 * r.sec <= opts[j].n < 1000 * (r.sec + 1))
    && ((forall j | 0 <= j < |opts| :: !opts[j].IsTime()) ==> r.sec == sec)
  }

  lemma SaysOne(opts: seq<Opt>, condition: Condition, sec: int, condition': Condition, sec': int, r: Kind)
    requires opts != [] && Says(opts[1..], condition', sec', r)
    requires condition' == if !opts[0].IsTime() then opts[0].Condition() else if condition == NONE then EXORPX else condition
    requires if opts[0].OptEX? then sec' == opts[0].n else if opts[0].OptPX? then 1000 * sec' <= opts[0].n < 1000 * (sec' + 1) else sec' == sec
    ensures Says(opts, condition, sec, r)
  {
    var rest := opts[1..];
    assert forall j | 1 <= j < |opts| :: opts[j] == rest[j - 1];
    forall j | LastCondition(opts, j)
      ensures r.condition == opts[j].Condition()
    {
      if j == 0 {
        assert forall k | 0 <= k < |rest| :: rest[k] == opts[k + 1];
      } else {
        assert LastCondition(rest, j - 1);
      }
    }
    forall j | LastTime(opts, j)
      ensures if opts[j].OptEX? then r.sec == opts[j].n else 1000 * r.sec <= opts[j].n < 1000 * (r.sec + 1)
    {
      if j == 0 {
        assert forall k | 0 <= k < |rest| :: rest[k] == opts[k + 1];
      } else {
        assert LastTime(rest, j - 1);
      }
    }
    assert forall k | 0 <= k < |rest| :: rest[k] == opts[k + 1];
  }

  function ConditionAfter(condition: Condition, opt: Opt): Condition {
    if !opt.IsTime() then opt.Condition() else if condition == NONE then EXORPX else condition
  }

  function SecAfter(sec: int, opt: Opt): int {
    if opt.OptEX? then opt.n else if opt.OptPX? then opt.n / 1000 else sec
  }

  lemma OneOption(argv: seq<string>, i: nat, condition: Condition, sec: int, opt: Opt)
    requires i + opt.Width() <= |argv| && opt.At(argv, i)
    ensures SetOptions(argv, i, condition, sec) == SetOptions(argv, i + opt.Width(), ConditionAfter(condition, opt), SecAfter(sec, opt))
  {
  }

  /** A list of options is accepted and means what its options say. */
  lemma {:induction false} ListAccepted(argv: seq<string>, i: nat, condition: Condition, sec: int, opts: seq<Opt>)
    requires i <= |argv| && Lists(argv, i, |argv|, opts)
    ensures SetOptions(argv, i, condition, sec).Some? && Says(opts, condition, sec, SetOptions(argv, i, condition, sec).value)
    decreases |opts|
  {
    if opts != [] {
      var opt := opts[0];
      var condition', sec' := ConditionAfter(condition, opt), SecAfter(sec, opt);
      OneOption(argv, i, condition, sec, opt);
      ListAccepted(argv, i + opt.Width(), condition', sec', opts[1..]);
      SaysOne(opts, condition, sec, condition', sec', SetOptions(argv, i, condition, sec).value);
    }
  }

  /** What stands at `i`, if it is not malformed. */
  function OptAt(argv: seq<string>, i: nat): (o: Opt)
    requires i < |argv| && !Malformed(argv, i)
    ensures i + o.Width() <= |argv| && o.At(argv, i)
  {
    var opt := Lower(argv[i]);
    if opt == "nx" then OptNX
    else if opt == "xx" then OptXX
    else if opt == "vx" then OptVX(argv[i + 1])
    else if opt == "ex" then OptEX(ParseInt(argv[i + 1]).value)
    else OptPX(ParseInt(argv[i + 1]).value)
  }

  /** Every list of arguments is a list of options up to its end or to something malformed. */
  lemma {:induction false} ListsUpTo(argv: seq<string>, i: nat) returns (k: nat, opts: seq<Opt>)
    requires i <= |argv|
    ensures i <= k <= |argv| && Lists(argv, i, k, opts) && (k < |argv| ==> Malformed(argv, k))
    decreases |argv| - i
  {
    if i == |argv| || Malformed(argv, i) {
      k, opts := i, [];
    } else {
      var o := OptAt(argv, i);
      var rest;
      k, rest := ListsUpTo(argv, i + o.Width());
      opts := [o] + rest;
      assert opts[1..] == rest;
    }
  }

  lemma {:induction false} MalformedRefused(argv: seq<string>, i: nat, k: nat, condition: Condition, sec: int, opts: seq<Opt>)
    requires i <= k < |argv| && Lists(argv, i, k, opts) && Malformed(argv, k)
    ensures SetOptions(argv, i, condition, sec).None?
    decreases |opts|
  {
    if opts != [] {
      var opt := opts[0];
      OneOption(argv, i, condition, sec, opt);
      MalformedRefused(argv, i + opt.Width(), k, ConditionAfter(condition, opt), SecAfter(sec, opt), opts[1..]);
    }
  }

  /** After some options there is something malformed. */
  ghost predicate RefusedList(argv: seq<string>, i: nat) {
    exists k, opts :: i <= k < |argv| && Lists(argv, i, k, opts) && Malformed(argv, k)
  }

  /** The arguments from `i` on are these options. */
  predicate AllOptions(argv: seq<string>, i: nat, opts: seq<Opt>) {
    Lists(argv, i, |argv|, opts)
  }

  lemma RefusedExactly(argv: seq<string>, i: nat)
    requires i <= |argv|
    ensures SetOptions(argv, i, NONE, 0).None? <==> RefusedList(argv, i)
  {
    if RefusedList(argv, i) {
      var k, opts :| i <= k < |argv| && Lists(argv, i, k, opts) && Malformed(argv, k);
      MalformedRefused(argv, i, k, NONE, 0, opts);
    } else {
      var k, opts := ListsUpTo(argv, i);
      ListAccepted(argv, i, NONE, 0, opts);
    }
  }

  lemma AcceptedExactly(argv: seq<string>, i: nat)
    requires i <= |argv|
    ensures SetOptions(argv, i, NONE, 0).Some? <==> exists opts :: AllOptions(argv, i, opts)
    ensures forall opts | AllOptions(argv, i, opts) ::
              SetOptions(argv, i, NONE, 0).Some? && Says(opts, NONE, 0, SetOptions(argv, i, NONE, 0).value)
  {
    var k, opts := ListsUpTo(argv, i);
    if k < |argv| {
      MalformedRefused(argv, i, k, NONE, 0, opts);
    } else {
      assert AllOptions(argv, i, opts);
    }
    forall opts' | AllOptions(argv, i, opts')
      ensures SetOptions(argv, i, NONE, 0).Some? && Says(opts', NONE, 0, SetOptions(argv, i, NONE, 0).value)
    {
      ListAccepted(argv, i, NONE, 0, opts');
    }
  }

  method ParseSetOptions(argv: seq<string>) returns (r: Option<Kind>)
    requires |argv| >= 3
    ensures r == SetOptions(argv, 3, NONE, 0)
    ensures r.None? <==> RefusedList(argv, 3)
    ensures r.Some? <==> exists opts :: AllOptions(argv, 3, opts)
    ensures forall opts | AllOptions(argv, 3, opts) :: r.Some? && Says(opts, NONE, 0, r.value)
  {
    r := ScanOptions(argv);
    RefusedExactly(argv, 3);
    AcceptedExactly(argv, 3);
  }

  /** The loop over the options. */
  method ScanOptions(argv: seq<string>) returns (r: Option<Kind>)
    requires |argv| >= 3
    ensures r == SetOptions(argv, 3, NONE, 0)
  {
    var condition, sec := NONE, 0;
    var index := 3;
    while index != |argv|
      invariant 3 <= index <= |argv| && SetOptions(argv, 3, NONE, 0) == SetOptions(argv, index, condition, sec)
      decreases |argv| - index
    {
      var opt := Lower(argv[index]);
      if opt == "xx" {
        condition := XX;
      } else if opt == "nx" {
        condition := NX;
      } else if opt == "vx" {
        condition := VX;
        index := index + 1;
        if index == |argv| {
          return None;
        }
      } else if opt == "ex" || opt == "px" {
        condition := if condition == NONE then EXORPX else condition;
        index := index + 1;
        if index == |argv| {
          return None;
        }
        var n := ParseInt(argv[index]);
        if n.None? || n.value <= 0 {
          return None;
        }
        sec := if opt == "px" then n.value / 1000 else n.value;
      } else {
        return None;
      }
      index := index + 1;
    }
    r := Some(Set(condition, sec));
  }

  predicate Arity(name: Name, n: nat) {
    match name
    case SET => n >= 3
    case SETNX => n == 3
    case SETEX => n == 4
    case PSETEX => n == 4
    case PKSETEXAT => n == 4
    case EXPIRE => n == 3
    case PEXPIRE => n == 3
    case EXPIREAT => n == 3
    case PEXPIREAT => n == 3
    case FLUSHALL => n == 1
    case FLUSHDB => n >= 1
    case PADDING => n == 2
    case OTHER => n >= 1
  }

  predicate FlushesKnownType(argv: seq<string>) {
    |argv| == 1 || (|argv| > 1 && Lower(argv[1]) in {"string", "hash", "set", "zset", "list"})
  }

  function Timed(argv: seq<string>, name: Name, n: int): Option<Kind> {
    match name
    case SETEX => Some(Setex(n))
    case PSETEX => Some(Psetex(n))
    case PKSETEXAT => if n >= INT32_MAX then None else Some(PkSetexAt(n))
    case EXPIRE => Some(Expire(n))
    case PEXPIRE => Some(Pexpire(n))
    case EXPIREAT => Some(Expireat(n))
    case PEXPIREAT => Some(Pexpireat(n))
    case _ => None
  }

  function KindOf(argv: seq<string>): Option<Kind> {
    if argv == [] then None
    else
      var name := NameOf(argv[0]);
      if !Arity(name, |argv|) then None
      else
        match name
        case SET => SetOptions(argv, 3, NONE, 0)
        case SETNX => Some(Setnx)
        case FLUSHALL => Some(Flushall)
        case FLUSHDB => if FlushesKnownType(argv) then Some(Other) else None
        case PADDING => Some(Padding)
        case OTHER => Some(Other)
        case _ =>
          match ParseInt(argv[2])
          case None => None
          case Some(n) => Timed(argv, name, n)
  }

  /** The command its arguments denote, or none if they are refused. */
  function Initial(argv: seq<string>): Option<Command> {
    match KindOf(argv)
    case None => None
    case Some(kind) => Some(Command(argv, kind))
  }

  /* ---------- what is logged ---------- */

  /** Seconds after execution at which a command that is rewritten lets its key expire. */
  function Ttl(kind: Kind): int {
    match kind
    case Set(_, sec) => sec
    case Setex(sec) => sec
    case Psetex(ms) => Seconds(ms)
    case Expire(sec) => sec
    case Pexpire(ms) => Seconds(ms)
    case _ => 0
  }

  predicate ToPkSetexAt(kind: Kind) { (kind.Set? && kind.condition == EXORPX) || kind.Setex? || kind.Psetex? }

  predicate ToExpireat(kind: Kind) { kind.Expire? || kind.Pexpire? || kind.Pexpireat? }

  /** As many arguments as its kind needs, and for a padding command no more than a
      block holds. */
  predicate Shaped(c: Command) {
    match c.kind
    case Set(_, _) => |c.argv| >= 3
    case Setex(_) => |c.argv| == 4
    case Psetex(_) => |c.argv| == 4
    case Setnx => |c.argv| == 3
    case Expire(_) => |c.argv| == 3
    case Pexpire(_) => |c.argv| == 3
    case Pexpireat(ms) => |c.argv| == 3 && INT64_MIN <= ms <= INT64_MAX
    case Padding => |c.argv| == 2 && RECORD_HEADER + 27 + |c.argv[1]| <= BinlogFormat.BLOCK_SIZE - BinlogFormat.HEADER_SIZE
    case _ => c.argv != []
  }

  /** A padding command is no larger than a block holds. */
  predicate SizeOk(argv: seq<string>) {
    |argv| == 2 && NameOf(argv[0]) == PADDING ==>
      RECORD_HEADER + 27 + |argv[1]| <= BinlogFormat.BLOCK_SIZE - BinlogFormat.HEADER_SIZE
  }

  /** A parsed command has what its kind needs. */
  lemma InitialShaped(argv: seq<string>)
    requires Initial(argv).Some? && SizeOk(argv)
    ensures Shaped(Initial(argv).value)
  {
  }

  /** Arguments of the command that is logged in place of `c` at time `now`. */
  function LoggedArgs(c: Command, now: int): seq<string>
    requires Shaped(c)
  {
    if ToPkSetexAt(c.kind) then
      ["pksetexat", c.argv[1], IntText(Trunc32(now + Ttl(c.kind))), if c.kind.Set? then c.argv[2] else c.argv[3]]
    else if c.kind.Pexpireat? then ["expireat", c.argv[1], IntText(Seconds(c.kind.ms))]
    else if ToExpireat(c.kind) then ["expireat", c.argv[1], IntText(Trunc64(now + Ttl(c.kind)))]
    else if c.kind.Setnx? then ["setnx", c.argv[1], c.argv[2]]
    else if c.kind.Flushall? then ["flushdb"]
    else if c.kind.Padding? then ["padding", Repeat('*', |c.argv[1]|)]
    else c.argv
  }

  /** The content logged for a command: its arguments as text; padding keeps its size. */
  function ToContent(c: Command, now: int): string
    requires Shaped(c)
  {
    if c.kind.Padding? then PaddingContent(|c.argv[1]|) else Content(LoggedArgs(c, now))
  }

  /* ---------- what is logged, in terms of the arguments ---------- */

  /** Whole seconds in `ms` milliseconds, towards zero. */
  predicate WholeSeconds(ms: int, sec: int) {
    && (ms >= 0 ==> 1000 * sec <= ms < 1000 * (sec + 1))
    && (ms <= 0 ==> 1000 * (sec - 1) < ms <= 1000 * sec)
  }

  lemma SetKind(argv: seq<string>, r: Kind)
    requires |argv| >= 3 && NameOf(argv[0]) == SET && SetOptions(argv, 3, NONE, 0) == Some(r)
    ensures Initial(argv) == Some(Command(argv, r)) && r.Set?
  {
  }

  /** What options that are all times say. */
  lemma TimesSay(argv: seq<string>, opts: seq<Opt>, j: nat) returns (sec: int)
    requires |argv| >= 3 && AllOptions(argv, 3, opts)
    requires LastTime(opts, j) && forall k | 0 <= k < |opts| :: opts[k].IsTime()
    ensures SetOptions(argv, 3, NONE, 0) == Some(Set(EXORPX, sec))
    ensures if opts[j].OptEX? then sec == opts[j].n else WholeSeconds(opts[j].n, sec)
  {
    AcceptedExactly(argv, 3);
    var r := SetOptions(argv, 3, NONE, 0).value;
    assert Says(opts, NONE, 0, r);
    ListedPositive(argv, 3, |argv|, opts, j);
    sec := r.sec;
  }

  /** SET with times and no condition is logged with the absolute time of its last one. */
  lemma SetTimeLogged(argv: seq<string>, opts: seq<Opt>, j: nat, now: int) returns (sec: int)
    requires |argv| >= 3 && NameOf(argv[0]) == SET && AllOptions(argv, 3, opts)
    requires LastTime(opts, j) && forall k | 0 <= k < |opts| :: opts[k].IsTime()
    ensures if opts[j].OptEX? then sec == opts[j].n else WholeSeconds(opts[j].n, sec)
    ensures
      && Initial(argv).Some? && Shaped(Initial(argv).value)
      && LoggedArgs(Initial(argv).value, now) == ["pksetexat", argv[1], IntText(Trunc32(now + sec)), argv[2]]
  {
    sec := TimesSay(argv, opts, j);
    SetKind(argv, Set(EXORPX, sec));
  }

  lemma {:induction false} ListedPositive(argv: seq<string>, i: nat, k: nat, opts: seq<Opt>, j: nat)
    requires k <= |argv| && Lists(argv, i, k, opts) && j < |opts| && opts[j].IsTime()
    ensures opts[j].n > 0
    decreases |opts|
  {
    if j > 0 {
      ListedPositive(argv, i + opts[0].Width(), k, opts[1..], j - 1);
    }
  }

  /** SET with a condition, or without options, is logged as it is. */
  lemma SetOtherLogged(argv: seq<string>, opts: seq<Opt>, now: int)
    requires |argv| >= 3 && NameOf(argv[0]) == SET && AllOptions(argv, 3, opts)
    requires opts == [] || exists j :: LastCondition(opts, j)
    ensures Initial(argv).Some? && Shaped(Initial(argv).value) && LoggedArgs(Initial(argv).value, now) == argv
  {
    AcceptedExactly(argv, 3);
    var r := SetOptions(argv, 3, NONE, 0).value;
    assert Says(opts, NONE, 0, r);
    if opts != [] {
      var j :| LastCondition(opts, j);
      assert r.condition == opts[j].Condition();
    }
  }

  /** SETEX and PSETEX become an absolute time with the value behind it. */
  lemma SetexLogged(argv: seq<string>, n: int, now: int) returns (sec: int)
    requires |argv| == 4 && NameOf(argv[0]) in {SETEX, PSETEX} && ParseInt(argv[2]) == Some(n)
    ensures if NameOf(argv[0]) == SETEX then sec == n else WholeSeconds(n, sec)
    ensures
      && Initial(argv).Some? && Shaped(Initial(argv).value) && Expiry(Initial(argv).value.kind, now) == Some(now + sec)
      && LoggedArgs(Initial(argv).value, now) == ["pksetexat", argv[1], IntText(Trunc32(now + sec)), argv[3]]
  {
    sec := if NameOf(argv[0]) == SETEX then n else Seconds(n);
  }

  /** EXPIRE and PEXPIRE become an absolute time; so does the one of PEXPIREAT, in seconds. */
  lemma ExpireLogged(argv: seq<string>, n: int, now: int) returns (sec: int)
    requires |argv| == 3 && NameOf(argv[0]) in {EXPIRE, PEXPIRE, PEXPIREAT} && ParseInt(argv[2]) == Some(n)
    ensures if NameOf(argv[0]) == EXPIRE then sec == n else WholeSeconds(n, sec)
    ensures Initial(argv).Some? && Shaped(Initial(argv).value)
    ensures
      var at := if NameOf(argv[0]) == PEXPIREAT then sec else now + sec;
      && Expiry(Initial(argv).value.kind, now) == Some(at)
      && LoggedArgs(Initial(argv).value, now) == ["expireat", argv[1], IntText(Trunc64(at))]
  {
    var name := NameOf(argv[0]);
    sec := if name == EXPIRE then n else Seconds(n);
    InRange(argv[2]);
    ExpireArgs(Command(argv, if name == EXPIRE then Expire(n) else if name == PEXPIRE then Pexpire(n) else Pexpireat(n)), now);
  }

  lemma ExpireArgs(c: Command, now: int)
    requires |c.argv| == 3 && ToExpireat(c.kind) && Shaped(c)
    ensures
      var at := if c.kind.Pexpireat? then Seconds(c.kind.ms) else now + Ttl(c.kind);
      LoggedArgs(c, now) == ["expireat", c.argv[1], IntText(Trunc64(at))] && Expiry(c.kind, now) == Some(at)
  {
  }

  /** A number that is read is one of 64 bits. */
  lemma InRange(text: string)
    requires ParseInt(text).Some?
    ensures INT64_MIN <= ParseInt(text).value <= INT64_MAX
  {
  }

  /** Ten thousand milliseconds from 100 on are second 110. */
  lemma PxLogged(px: string)
    requires Lower(px) == "px"
    ensures
      var argv := ["set", "k", "v", px, IntText(10000)];
      && Initial(argv).Some? && Shaped(Initial(argv).value)
      && LoggedArgs(Initial(argv).value, 100) == ["pksetexat", "k", IntText(110), "v"]
  {
    var argv := ["set", "k", "v", px, IntText(10000)];
    LowerSame("set");
    LookupFinds("set", 0, 0);
    ParseIntText(10000);
    var opts := [OptPX(10000)];
    assert opts[1..] == [] && Lists(argv, 5, |argv|, []);
    assert AllOptions(argv, 3, opts);
    var sec := SetTimeLogged(argv, opts, 0, 100);
    assert sec == 10;
  }

  lemma SetexName()
    ensures NameOf("setex") == SETEX && NameOf("psetex") == PSETEX
  {
    LowerSame("setex");
    LookupFinds("setex", 0, 2);
    LowerSame("psetex");
    LookupFinds("psetex", 0, 3);
  }

  lemma ExpireName()
    ensures NameOf("expire") == EXPIRE && NameOf("pexpire") == PEXPIRE
  {
    LowerSame("expire");
    LookupFinds("expire", 0, 5);
    LowerSame("pexpire");
    LookupFinds("pexpire", 0, 6);
  }

  lemma PexpireatName()
    ensures NameOf("pexpireat") == PEXPIREAT
  {
    LowerSame("pexpireat");
    LookupFinds("pexpireat", 0, 8);
  }

  lemma FlushallName()
    ensures NameOf("flushall") == FLUSHALL
  {
    LowerSame("flushall");
    LookupFinds("flushall", 0, 9);
  }

  /* ---------- replaying what was logged ---------- */

  /** The logged content reads back as the logged arguments. */
  lemma ContentBack(c: Command, now: int)
    requires Shaped(c)
    ensures Parse(ToContent(c, now)) == Some(LoggedArgs(c, now))
  {
    if c.kind.Padding? {
      PaddingBack(|c.argv[1]|);
    } else {
      ParseContent(LoggedArgs(c, now));
    }
  }

  /** The one time at which a rewritten SET is refused on replay: its expiry, in 32 bits,
      is the largest there is. */
  predicate Refused(c: Command, now: int) {
    ToPkSetexAt(c.kind) && Trunc32(now + Ttl(c.kind)) == INT32_MAX
  }

  /** The kind of command that the logged arguments denote. */
  function ReplayedKind(c: Command, now: int): Kind {
    if ToPkSetexAt(c.kind) then PkSetexAt(Trunc32(now + Ttl(c.kind)))
    else if c.kind.Pexpireat? then Expireat(Seconds(c.kind.ms))
    else if ToExpireat(c.kind) then Expireat(Trunc64(now + Ttl(c.kind)))
    else if c.kind.Flushall? then Other
    else c.kind
  }

  lemma PkSetexAtBack(argv: seq<string>, at: int)
    requires |argv| == 4 && argv[0] == "pksetexat" && argv[2] == IntText(at) && INT32_MIN <= at <= INT32_MAX
    ensures KindOf(argv) == if at == INT32_MAX then None else Some(PkSetexAt(at))
  {
    PkSetexAtName();
    ParseIntText(at);
    assert NameOf(argv[0]) == PKSETEXAT && ParseInt(argv[2]) == Some(at);
  }

  lemma ExpireatBack(argv: seq<string>, at: int)
    requires |argv| == 3 && argv[0] == "expireat" && argv[2] == IntText(at) && INT64_MIN <= at <= INT64_MAX
    ensures KindOf(argv) == Some(Expireat(at))
  {
    ExpireatName();
    ParseIntText(at);
  }

  lemma SetnxBack(argv: seq<string>)
    requires |argv| == 3 && argv[0] == "setnx"
    ensures KindOf(argv) == Some(Setnx)
  {
    SetnxName();
  }

  lemma PaddingCommandBack(argv: seq<string>)
    requires |argv| == 2 && argv[0] == "padding"
    ensures KindOf(argv) == Some(Padding)
  {
    PaddingName();
  }

  lemma FlushdbBack(argv: seq<string>)
    requires |argv| == 1 && argv[0] == "flushdb"
    ensures KindOf(argv) == Some(Other)
  {
    FlushdbName();
  }

  predicate Rewritten(kind: Kind) {
    ToPkSetexAt(kind) || ToExpireat(kind) || kind.Setnx? || kind.Flushall? || kind.Padding?
  }

  lemma ReplayRewritten(c: Command, now: int)
    requires Shaped(c) && Rewritten(c.kind)
    ensures KindOf(LoggedArgs(c, now)) == if Refused(c, now) then None else Some(ReplayedKind(c, now))
  {
    var kind, argv := c.kind, LoggedArgs(c, now);
    if ToPkSetexAt(kind) {
      PkSetexAtBack(argv, Trunc32(now + Ttl(kind)));
    } else if kind.Pexpireat? {
      ExpireatBack(argv, Seconds(kind.ms));
    } else if ToExpireat(kind) {
      ExpireatBack(argv, Trunc64(now + Ttl(kind)));
    } else if kind.Setnx? {
      SetnxBack(argv);
    } else if kind.Flushall? {
      FlushdbBack(argv);
    } else {
      PaddingCommandBack(argv);
    }
  }

  /** Replay parses the logged arguments, except in the one refused case. */
  lemma ReplayParses(c: Command, now: int)
    requires Shaped(c) && KindOf(c.argv) == Some(c.kind)
    ensures KindOf(LoggedArgs(c, now)) == if Refused(c, now) then None else Some(ReplayedKind(c, now))
  {
    if Rewritten(c.kind) {
      ReplayRewritten(c, now);
    }
  }

  /** Logging again what a replayed command holds gives the same arguments. */
  lemma LoggedAgain(c: Command, now: int, c': Command, later: int)
    requires Shaped(c) && c' == Command(LoggedArgs(c, now), ReplayedKind(c, now))
    ensures Shaped(c') && LoggedArgs(c', later) == LoggedArgs(c, now)
    ensures c'.kind.Padding? <==> c.kind.Padding?
  {
  }

  /** Rewriting is a fixed point: a node that replays logged content, at whatever time,
      logs that same content again. Replay fails exactly in the refused case. */
  lemma RewriteFixedPoint(argv: seq<string>, now: int, later: int)
    requires Initial(argv).Some? && SizeOk(argv)
    ensures Shaped(Initial(argv).value)
    ensures
      var c := Initial(argv).value;
      var logged := Parse(ToContent(c, now));
      && logged.Some? && (Initial(logged.value).Some? <==> !Refused(c, now))
      && (!Refused(c, now) ==> Shaped(Initial(logged.value).value) && ToContent(Initial(logged.value).value, later) == ToContent(c, now))
  {
    InitialShaped(argv);
    var c := Initial(argv).value;
    ContentBack(c, now);
    ReplayParses(c, now);
    LoggedAgain(c, now, Command(LoggedArgs(c, now), ReplayedKind(c, now)), later);
  }

  /** The key a command is about, for the commands rewritten here. */
  function KeyArg(c: Command): Option<string> {
    if c.kind.Flushall? || c.kind.Padding? || c.kind.Other? || |c.argv| < 2 then None else Some(c.argv[1])
  }

  /** The value a command sets: it follows the key in SET and SETNX, and the time in the others. */
  function ValueArg(c: Command): Option<string> {
    if (c.kind.Set? || c.kind.Setnx?) && |c.argv| >= 3 then Some(c.argv[2])
    else if (c.kind.Setex? || c.kind.Psetex? || c.kind.PkSetexAt?) && |c.argv| == 4 then Some(c.argv[3])
    else None
  }

  /** Replay sets the same value to the same key, or lets the same key expire. */
  lemma ReplaySameWrite(argv: seq<string>, now: int)
    requires Initial(argv).Some? && SizeOk(argv) && !Refused(Initial(argv).value, now)
    ensures Shaped(Initial(argv).value)
    ensures
      var c := Initial(argv).value;
      var replayed := Initial(LoggedArgs(c, now));
      replayed.Some? && KeyArg(replayed.value) == KeyArg(c) && ValueArg(replayed.value) == ValueArg(c)
  {
    InitialShaped(argv);
    var c := Initial(argv).value;
    ReplayParses(c, now);
    SameWrite(c, now, Command(LoggedArgs(c, now), ReplayedKind(c, now)));
  }

  lemma SameWrite(c: Command, now: int, c': Command)
    requires Shaped(c) && c' == Command(LoggedArgs(c, now), ReplayedKind(c, now))
    ensures KeyArg(c') == KeyArg(c) && ValueArg(c') == ValueArg(c)
  {
  }

  /* ---------- expiry ---------- */

  /** Time at which the key of a command executed at `now` is to expire, if it sets one. */
  function Expiry(kind: Kind, now: int): Option<int> {
    match kind
    case Set(condition, sec) => if condition == EXORPX || sec > 0 then Some(now + sec) else None
    case Setex(sec) => Some(now + sec)
    case Psetex(ms) => Some(now + Seconds(ms))
    case PkSetexAt(at) => Some(at)
    case Expire(sec) => Some(now + sec)
    case Pexpire(ms) => Some(now + Seconds(ms))
    case Expireat(at) => Some(at)
    case Pexpireat(ms) => Some(Seconds(ms))
    case _ => None
  }

  /** When replay sets the expiry fixed at logging time: the absolute time fits its type,
      and SET has no relative time beside NX, XX or VX. */
  predicate Pinned(kind: Kind, now: int) {
    if ToPkSetexAt(kind) then INT32_MIN <= now + Ttl(kind) <= INT32_MAX
    else if kind.Expire? || kind.Pexpire? then INT64_MIN <= now + Ttl(kind) <= INT64_MAX
    else if kind.Set? then kind.sec <= 0
    else true
  }

  lemma PinnedExactly(c: Command, now: int)
    ensures (forall later :: Expiry(ReplayedKind(c, now), later) == Expiry(c.kind, now)) <==> Pinned(c.kind, now)
  {
    var kind := ReplayedKind(c, now);
    if c.kind.Set? && c.kind.condition != EXORPX && c.kind.sec > 0 {
      assert Expiry(kind, now + 1) != Expiry(c.kind, now);
    } else {
      assert Expiry(kind, now) == Expiry(c.kind, now) <==> Pinned(c.kind, now);
    }
  }

  /** Replay at any time sets the expiry of the original execution exactly when it is pinned. */
  lemma ReplayExpiry(argv: seq<string>, now: int)
    requires Initial(argv).Some? && SizeOk(argv) && !Refused(Initial(argv).value, now)
    ensures Shaped(Initial(argv).value)
    ensures
      var c := Initial(argv).value;
      var replayed := Initial(LoggedArgs(c, now));
      replayed.Some? && ((forall later :: Expiry(replayed.value.kind, later) == Expiry(c.kind, now)) <==> Pinned(c.kind, now))
  {
    InitialShaped(argv);
    var c := Initial(argv).value;
    ReplayParses(c, now);
    PinnedExactly(c, now);
  }

  /** With NX the time stays relative in the log: ten seconds logged at 100 and replayed
      at 1000 expire at 1010 instead of 110. */
  lemma NxExpiryMoves()
    ensures
      var argv := ["set", "k", "v", "nx", "ex", "10"];
      && Initial(argv) == Some(Command(argv, Set(NX, 10)))
      && LoggedArgs(Initial(argv).value, 100) == argv
      && Expiry(Initial(argv).value.kind, 100) == Some(110) && Expiry(Initial(argv).value.kind, 1000) == Some(1010)
  {
    var argv := ["set", "k", "v", "nx", "ex", "10"];
    LowerSame("set");
    LookupFinds("set", 0, 0);
    LowerSame("nx");
    LowerSame("ex");
    ValueOfDigits(10);
    assert DigitsOf(10) == "10";
    ParseIntText(10);
    assert SetOptions(argv, 5 + 1, NX, 10) == Some(Set(NX, 10));
    assert SetOptions(argv, 4, NX, 0) == Some(Set(NX, 10));
    assert SetOptions(argv, 3, NONE, 0) == Some(Set(NX, 10));
  }

  /** The refused case is reached: ten seconds from 2147483637 on are the largest 32-bit
      time, and what is logged is then refused on replay. */
  lemma LargestTimeRefused()
    ensures
      var argv := ["set", "k", "v", "ex", "10"];
      var c := Command(argv, Set(EXORPX, 10));
      && Initial(argv) == Some(c) && Shaped(c) && Refused(c, 2147483637)
      && Initial(LoggedArgs(c, 2147483637)) == None
  {
    var argv := ["set", "k", "v", "ex", "10"];
    var c := Command(argv, Set(EXORPX, 10));
    LowerSame("set");
    LookupFinds("set", 0, 0);
    LowerSame("ex");
    ValueOfDigits(10);
    assert DigitsOf(10) == "10";
    ParseIntText(10);
    assert SetOptions(argv, 3 + 2, EXORPX, 10) == Some(Set(EXORPX, 10));
    assert SetOptions(argv, 3, NONE, 0) == Some(Set(EXORPX, 10));
    ReplayParses(c, 2147483637);
  }
}
