/** Classic BPF as seccomp runs it. */
module Bpf {

  type word = bv32

  /** `sock_filter`: operation code, relative jumps, operand. */
  datatype Instruction = Instruction(code: nat, jt: nat, jf: nat, k: word)

  const LOAD := 0x20
  const AND := 0x54
  const JUMP_EQUAL := 0x15
  const RETURN := 0x06

  /** The 16 words of `seccomp_data`: number, architecture, instruction pointer, six arguments. */
  type Data = d: seq<word> | |d| == 16 witness seq(16, _ => 0)

  function Number(data: Data): word { data[0] }
  function Arch(data: Data): word { data[1] }
  function Arg0(data: Data): word { data[4] }

  datatype Outcome = Returned(value: word) | Stuck

  datatype Step = Go(pc: nat, acc: word) | Halt(value: word) | Fault

  /** One instruction; a load outside the data, an unknown code or an offset that is not a whole
      word does not run. */
  function Execute(i: Instruction, data: Data, pc: nat, acc: word): Step {
    if i.code == LOAD then
      if i.k as nat % 4 == 0 && i.k as nat / 4 < 16 then Go(pc + 1, data[i.k as nat / 4]) else Fault
    else if i.code == AND then Go(pc + 1, acc & i.k)
    else if i.code == JUMP_EQUAL then Go(pc + 1 + (if acc == i.k then i.jt else i.jf), acc)
    else if i.code == RETURN then Halt(i.k)
    else Fault
  }

  /** Jumps only go forward, so every run ends. */
  function Run(program: seq<Instruction>, data: Data, pc: nat, acc: word): Outcome
    decreases |program| - pc
  {
    if pc >= |program| then Stuck
    else
      match Execute(program[pc], data, pc, acc)
      case Go(next, acc') => Run(program, data, next, acc')
      case Halt(value) => Returned(value)
      case Fault => Stuck
  }

  function Statement(code: nat, value: word): Instruction {
    Instruction(code, 0, 0, value)
  }

  function Jump(value: word, jt: nat, jf: nat): Instruction {
    Instruction(JUMP_EQUAL, jt, jf, value)
  }

  /** `block` occupies the program from `at` on. */
  ghost predicate Holds(program: seq<Instruction>, at: nat, block: seq<Instruction>) {
    at + |block| <= |program| && forall i :: 0 <= i < |block| ==> program[at + i] == block[i]
  }

  lemma {:induction false} HoldsConcat(program: seq<Instruction>, at: nat, a: seq<Instruction>, b: seq<Instruction>)
    requires Holds(program, at, a + b)
    ensures Holds(program, at, a) && Holds(program, at + |a|, b)
  {
    forall i | 0 <= i < |a| ensures program[at + i] == a[i] {
      assert (a + b)[i] == a[i];
    }
    forall i | 0 <= i < |b| ensures program[at + |a| + i] == b[i] {
      assert (a + b)[|a| + i] == b[i];
      assert program[at + (|a| + i)] == (a + b)[|a| + i];
    }
  }
}

/** The filter that confines a plugin host, as a compiler from rules to BPF. */
module Confinement {
  import opened Basics
  import opened Bpf

  const KILL: word := 0x8000_0000
  const ERRNO: word := 0x0005_0000
  const ALLOW: word := 0x7fff_0000

  const EPERM: word := 1
  const ENOSYS: word := 38
  const EAFNOSUPPORT: word := 97
  const AF_UNIX: word := 1
  const THREAD_FLAGS: word := 0x1_0900
  const PR_SET_PDEATHSIG: word := 1
  const PR_SET_DUMPABLE: word := 4
  const PR_SET_PTRACER: word := 0x5961_6d61

  /** Numbers that depend on the architecture. */
  datatype Abi = Abi(arch: word, prctl: word, clone: word, clone3: word, socket: word, socketpair: word)

  /** What the filter is made of between its prologue and the final allow. */
  datatype Rule =
    | SensitivePrctl
    | Deny(number: word, errno: word)
    | ThreadCloneOnly
    | UnixOnly(number: word)

  // ----- emission -----

  function Compile(abi: Abi, rule: Rule): seq<Instruction> {
    match rule
    case SensitivePrctl =>
      [Jump(abi.prctl, 0, 5), Statement(LOAD, 16), Jump(PR_SET_DUMPABLE, 2, 0), Jump(PR_SET_PTRACER, 1, 0),
       Jump(PR_SET_PDEATHSIG, 0, 1), Statement(RETURN, ERRNO | EPERM)]
    case Deny(number, errno) =>
      [Jump(number, 0, 1), Statement(RETURN, ERRNO | errno)]
    case ThreadCloneOnly =>
      [Jump(abi.clone, 0, 4), Statement(LOAD, 16), Statement(AND, THREAD_FLAGS), Jump(THREAD_FLAGS, 1, 0),
       Statement(RETURN, ERRNO | EPERM)]
    case UnixOnly(number) =>
      [Jump(number, 0, 3), Statement(LOAD, 16), Jump(AF_UNIX, 1, 0), Statement(RETURN, ERRNO | EAFNOSUPPORT)]
  }

  function CompileAll(abi: Abi, rules: seq<Rule>): seq<Instruction> {
    if rules == [] then [] else Compile(abi, rules[0]) + CompileAll(abi, rules[1..])
  }

  function Prologue(abi: Abi): seq<Instruction> {
    [Statement(LOAD, 4), Jump(abi.arch, 1, 0), Statement(RETURN, KILL), Statement(LOAD, 0)]
  }

  function Program(abi: Abi, rules: seq<Rule>): seq<Instruction> {
    Prologue(abi) + CompileAll(abi, rules) + [Statement(RETURN, ALLOW)]
  }

  function DenyAll(numbers: seq<word>): (r: seq<Rule>)
    ensures |r| == |numbers|
  {
    seq(|numbers|, i requires 0 <= i < |numbers| => Deny(numbers[i], EPERM))
  }

  function Rules(abi: Abi, live: bool, blocked: seq<word>): seq<Rule> {
    if live then
      [SensitivePrctl, Deny(abi.clone3, ENOSYS), ThreadCloneOnly] + DenyAll(blocked)
        + [UnixOnly(abi.socket), UnixOnly(abi.socketpair)]
    else
      [SensitivePrctl] + DenyAll(blocked + [abi.clone, abi.clone3, abi.socket, abi.socketpair])
  }

  lemma {:induction false} CompileConcat(abi: Abi, a: seq<Rule>, b: seq<Rule>)
    ensures CompileAll(abi, a + b) == CompileAll(abi, a) + CompileAll(abi, b)
  {
    if a == [] {
      assert a + b == b;
    } else {
      CompileConcat(abi, a[1..], b);
      CompileFirst(abi, a, b);
      CompileStep(abi, a);
      HeadFirst(Compile(abi, a[0]), CompileAll(abi, a[1..]), CompileAll(abi, b), CompileAll(abi, a + b), CompileAll(abi, a));
    }
  }

  lemma {:induction false} CompileFirst(abi: Abi, a: seq<Rule>, b: seq<Rule>)
    requires a != []
    ensures CompileAll(abi, a + b) == Compile(abi, a[0]) + CompileAll(abi, a[1..] + b)
  {
    assert (a + b)[0] == a[0] && (a + b)[1..] == a[1..] + b;
    CompileStep(abi, a + b);
  }

  lemma {:induction false} CompileStep(abi: Abi, rules: seq<Rule>)
    requires rules != []
    ensures CompileAll(abi, rules) == Compile(abi, rules[0]) + CompileAll(abi, rules[1..])
  {
  }

  lemma {:induction false} CompileOne(abi: Abi, rule: Rule)
    ensures CompileAll(abi, [rule]) == Compile(abi, rule)
  {
    assert [rule][1..] == [];
  }

  /** Appending one compiled rule to a filter that starts with the prologue. */
  lemma {:induction false} AppendRule(abi: Abi, filter: seq<Instruction>, rules: seq<Rule>, rule: Rule)
    requires filter == Prologue(abi) + CompileAll(abi, rules)
    ensures filter + Compile(abi, rule) == Prologue(abi) + CompileAll(abi, rules + [rule])
  {
    CompileConcat(abi, rules, [rule]);
    CompileOne(abi, rule);
    ConcatAssociates(Prologue(abi), CompileAll(abi, rules), Compile(abi, rule));
  }

  method AddErrnoRule(abi: Abi, filter: seq<Instruction>, number: word, errno: word) returns (r: seq<Instruction>)
    ensures r == filter + Compile(abi, Deny(number, errno))
  {
    r := filter + [Jump(number, 0, 1)];
    r := r + [Statement(RETURN, ERRNO | errno)];
  }

  method AddThreadCloneOnlyRule(abi: Abi, filter: seq<Instruction>) returns (r: seq<Instruction>)
    ensures r == filter + Compile(abi, ThreadCloneOnly)
  {
    r := filter + [Jump(abi.clone, 0, 4)];
    r := r + [Statement(LOAD, 16)];
    r := r + [Statement(AND, THREAD_FLAGS)];
    r := r + [Jump(THREAD_FLAGS, 1, 0)];
    r := r + [Statement(RETURN, ERRNO | EPERM)];
  }

  method AddSensitivePrctlRule(abi: Abi, filter: seq<Instruction>) returns (r: seq<Instruction>)
    ensures r == filter + Compile(abi, SensitivePrctl)
  {
    r := filter + [Jump(abi.prctl, 0, 5)];
    r := r + [Statement(LOAD, 16)];
    r := r + [Jump(PR_SET_DUMPABLE, 2, 0)];
    r := r + [Jump(PR_SET_PTRACER, 1, 0)];
    r := r + [Jump(PR_SET_PDEATHSIG, 0, 1)];
    r := r + [Statement(RETURN, ERRNO | EPERM)];
  }

  method AddUnixSocketOnlyRule(abi: Abi, filter: seq<Instruction>, number: word) returns (r: seq<Instruction>)
    ensures r == filter + Compile(abi, UnixOnly(number))
  {
    r := filter + [Jump(number, 0, 3)];
    r := r + [Statement(LOAD, 16)];
    r := r + [Jump(AF_UNIX, 1, 0)];
    r := r + [Statement(RETURN, ERRNO | EAFNOSUPPORT)];
  }

  /** The loop that denies every blocked number. */
  method AddBlocked(abi: Abi, start: seq<Instruction>, ghost rules: seq<Rule>, blocked: seq<word>) returns (filter: seq<Instruction>)
    requires start == Prologue(abi) + CompileAll(abi, rules)
    ensures filter == Prologue(abi) + CompileAll(abi, rules + DenyAll(blocked))
  {
    filter := start;
    ghost var denied := rules;
    var i := 0;
    while i < |blocked|
      invariant 0 <= i <= |blocked|
      invariant |denied| == |rules| + i && denied <= rules + DenyAll(blocked)
      invariant filter == Prologue(abi) + CompileAll(abi, denied)
    {
      AppendRule(abi, filter, denied, Deny(blocked[i], EPERM));
      filter := AddErrnoRule(abi, filter, blocked[i], EPERM);
      denied := denied + [Deny(blocked[i], EPERM)];
      i := i + 1;
    }
    assert denied == rules + DenyAll(blocked);
  }

  /** The construction half of `apply_seccomp`; a program longer than 16 bits can count is refused. */
  method BuildFilter(abi: Abi, live: bool, blockedNumbers: seq<word>) returns (r: Option<seq<Instruction>>)
    ensures r == if |Program(abi, Rules(abi, live, blockedNumbers))| < 0x1_0000
                 then Some(Program(abi, Rules(abi, live, blockedNumbers))) else None
  {
    var filter := [Statement(LOAD, 4), Jump(abi.arch, 1, 0), Statement(RETURN, KILL), Statement(LOAD, 0)];
    ghost var rules: seq<Rule> := [];
    AppendRule(abi, filter, rules, SensitivePrctl);
    filter := AddSensitivePrctlRule(abi, filter);
    rules := rules + [SensitivePrctl];
    if live {
      filter := FinishLive(abi, filter, rules, blockedNumbers);
    } else {
      filter := AddBlocked(abi, filter, rules, blockedNumbers + [abi.clone, abi.clone3, abi.socket, abi.socketpair]);
    }
    filter := filter + [Statement(RETURN, ALLOW)];
    r := if |filter| < 0x1_0000 then Some(filter) else None;
  }

  /** What live mode adds behind the prctl rule. */
  method FinishLive(abi: Abi, start: seq<Instruction>, ghost first: seq<Rule>, blocked: seq<word>) returns (filter: seq<Instruction>)
    requires first == [SensitivePrctl] && start == Prologue(abi) + CompileAll(abi, first)
    ensures filter == Prologue(abi) + CompileAll(abi, Rules(abi, true, blocked))
  {
    ghost var rules := first;
    AppendRule(abi, start, rules, Deny(abi.clone3, ENOSYS));
    filter := AddErrnoRule(abi, start, abi.clone3, ENOSYS);
    rules := rules + [Deny(abi.clone3, ENOSYS)];
    AppendRule(abi, filter, rules, ThreadCloneOnly);
    filter := AddThreadCloneOnlyRule(abi, filter);
    rules := rules + [ThreadCloneOnly];
    filter := AddBlocked(abi, filter, rules, blocked);
    rules := rules + DenyAll(blocked);
    AppendRule(abi, filter, rules, UnixOnly(abi.socket));
    filter := AddUnixSocketOnlyRule(abi, filter, abi.socket);
    rules := rules + [UnixOnly(abi.socket)];
    AppendRule(abi, filter, rules, UnixOnly(abi.socketpair));
    filter := AddUnixSocketOnlyRule(abi, filter, abi.socketpair);
    rules := rules + [UnixOnly(abi.socketpair)];
    assert rules == Rules(abi, true, blocked);
  }

  // ----- meaning of the rules -----

  datatype Decision = Verdict(value: word) | Continue(acc: word)

  /** What a rule decides about the accumulator it meets; a rule that looked at an argument leaves
      that argument, not the number, to the rules behind it. */
  function Decide(abi: Abi, rule: Rule, acc: word, arg0: word): Decision {
    match rule
    case SensitivePrctl =>
      if acc != abi.prctl then Continue(acc)
      else if arg0 == PR_SET_DUMPABLE || arg0 == PR_SET_PTRACER || arg0 == PR_SET_PDEATHSIG then Verdict(ERRNO | EPERM)
      else Continue(arg0)
    case Deny(number, errno) =>
      if acc == number then Verdict(ERRNO | errno) else Continue(acc)
    case ThreadCloneOnly =>
      if acc != abi.clone then Continue(acc)
      else if arg0 & THREAD_FLAGS == THREAD_FLAGS then Continue(THREAD_FLAGS)
      else Verdict(ERRNO | EPERM)
    case UnixOnly(number) =>
      if acc != number then Continue(acc)
      else if arg0 == AF_UNIX then Continue(AF_UNIX)
      else Verdict(ERRNO | EAFNOSUPPORT)
  }

  /** The first rule with a verdict decides; otherwise the call is allowed. */
  function DecideAll(abi: Abi, rules: seq<Rule>, acc: word, arg0: word): word {
    if rules == [] then ALLOW
    else
      match Decide(abi, rules[0], acc, arg0)
      case Verdict(value) => value
      case Continue(acc') => DecideAll(abi, rules[1..], acc', arg0)
  }

  // ----- the compiled rules mean what they say -----

  lemma {:induction false} RunLoad(program: seq<Instruction>, data: Data, pc: nat, acc: word, k: word)
    requires pc < |program| && program[pc] == Statement(LOAD, k) && k in {0, 4, 16}
    ensures Run(program, data, pc, acc)
            == Run(program, data, pc + 1, if k == 0 then Number(data) else if k == 4 then Arch(data) else Arg0(data))
  {
    assert k as nat == (if k == 0 then 0 else if k == 4 then 4 else 16);
  }

  lemma {:induction false} RunAnd(program: seq<Instruction>, data: Data, pc: nat, acc: word, k: word)
    requires pc < |program| && program[pc] == Statement(AND, k)
    ensures Run(program, data, pc, acc) == Run(program, data, pc + 1, acc & k)
  {
  }

  lemma {:induction false} RunJump(program: seq<Instruction>, data: Data, pc: nat, acc: word, k: word, jt: nat, jf: nat)
    requires pc < |program| && program[pc] == Jump(k, jt, jf)
    ensures Run(program, data, pc, acc) == Run(program, data, pc + 1 + (if acc == k then jt else jf), acc)
  {
  }

  lemma {:induction false} RunReturn(program: seq<Instruction>, data: Data, pc: nat, acc: word, k: word)
    requires pc < |program| && program[pc] == Statement(RETURN, k)
    ensures Run(program, data, pc, acc) == Returned(k)
  {
  }

  ghost predicate RunsAs(abi: Abi, rule: Rule, program: seq<Instruction>, data: Data, at: nat, acc: word) {
    Run(program, data, at, acc) ==
      match Decide(abi, rule, acc, Arg0(data))
      case Verdict(value) => Returned(value)
      case Continue(acc') => Run(program, data, at + |Compile(abi, rule)|, acc')
  }

  lemma {:induction false} CompiledDeny(abi: Abi, number: word, errno: word, program: seq<Instruction>, data: Data, at: nat, acc: word)
    requires Holds(program, at, Compile(abi, Deny(number, errno)))
    ensures RunsAs(abi, Deny(number, errno), program, data, at, acc)
  {
    var block := Compile(abi, Deny(number, errno));
    assert program[at + 0] == block[0] && program[at + 1] == block[1];
    RunJump(program, data, at, acc, number, 0, 1);
    RunReturn(program, data, at + 1, acc, ERRNO | errno);
  }

  lemma {:induction false} CompiledPrctl(abi: Abi, program: seq<Instruction>, data: Data, at: nat, acc: word)
    requires Holds(program, at, Compile(abi, SensitivePrctl))
    ensures RunsAs(abi, SensitivePrctl, program, data, at, acc)
  {
    var block := Compile(abi, SensitivePrctl);
    var arg := Arg0(data);
    assert program[at + 0] == block[0];
    RunJump(program, data, at, acc, abi.prctl, 0, 5);
    if acc == abi.prctl {
      assert program[at + 1] == block[1] && program[at + 2] == block[2] && program[at + 3] == block[3];
      assert program[at + 4] == block[4] && program[at + 5] == block[5];
      RunLoad(program, data, at + 1, acc, 16);
      RunJump(program, data, at + 2, arg, PR_SET_DUMPABLE, 2, 0);
      RunJump(program, data, at + 3, arg, PR_SET_PTRACER, 1, 0);
      RunJump(program, data, at + 4, arg, PR_SET_PDEATHSIG, 0, 1);
      RunReturn(program, data, at + 5, arg, ERRNO | EPERM);
    }
  }

  lemma {:induction false} CompiledClone(abi: Abi, program: seq<Instruction>, data: Data, at: nat, acc: word)
    requires Holds(program, at, Compile(abi, ThreadCloneOnly))
    ensures RunsAs(abi, ThreadCloneOnly, program, data, at, acc)
  {
    var block := Compile(abi, ThreadCloneOnly);
    var arg := Arg0(data);
    assert program[at + 0] == block[0];
    RunJump(program, data, at, acc, abi.clone, 0, 4);
    if acc == abi.clone {
      assert program[at + 1] == block[1] && program[at + 2] == block[2];
      assert program[at + 3] == block[3] && program[at + 4] == block[4];
      RunLoad(program, data, at + 1, acc, 16);
      RunAnd(program, data, at + 2, arg, THREAD_FLAGS);
      RunJump(program, data, at + 3, arg & THREAD_FLAGS, THREAD_FLAGS, 1, 0);
      RunReturn(program, data, at + 4, arg & THREAD_FLAGS, ERRNO | EPERM);
    }
  }

  lemma {:induction false} CompiledUnixOnly(abi: Abi, number: word, program: seq<Instruction>, data: Data, at: nat, acc: word)
    requires Holds(program, at, Compile(abi, UnixOnly(number)))
    ensures RunsAs(abi, UnixOnly(number), program, data, at, acc)
  {
    var block := Compile(abi, UnixOnly(number));
    var arg := Arg0(data);
    assert program[at + 0] == block[0];
    RunJump(program, data, at, acc, number, 0, 3);
    if acc == number {
      assert program[at + 1] == block[1] && program[at + 2] == block[2] && program[at + 3] == block[3];
      RunLoad(program, data, at + 1, acc, 16);
      RunJump(program, data, at + 2, arg, AF_UNIX, 1, 0);
      RunReturn(program, data, at + 3, arg, ERRNO | EAFNOSUPPORT);
    }
  }

  /** Running a compiled rule either returns its verdict or falls through with the new accumulator. */
  lemma {:induction false} CompiledRule(abi: Abi, rule: Rule, program: seq<Instruction>, data: Data, at: nat, acc: word)
    requires Holds(program, at, Compile(abi, rule))
    ensures RunsAs(abi, rule, program, data, at, acc)
  {
    match rule
    case Deny(number, errno) => CompiledDeny(abi, number, errno, program, data, at, acc);
    case SensitivePrctl => CompiledPrctl(abi, program, data, at, acc);
    case ThreadCloneOnly => CompiledClone(abi, program, data, at, acc);
    case UnixOnly(number) => CompiledUnixOnly(abi, number, program, data, at, acc);
  }

  lemma {:induction false} CompiledRules(abi: Abi, rules: seq<Rule>, program: seq<Instruction>, data: Data, at: nat, acc: word)
    requires Holds(program, at, CompileAll(abi, rules) + [Statement(RETURN, ALLOW)])
    ensures Run(program, data, at, acc) == Returned(DecideAll(abi, rules, acc, Arg0(data)))
    decreases |rules|
  {
    if rules == [] {
      assert program[at + 0] == (CompileAll(abi, rules) + [Statement(RETURN, ALLOW)])[0];
      RunReturn(program, data, at, acc, ALLOW);
    } else {
      var first, rest := Compile(abi, rules[0]), CompileAll(abi, rules[1..]) + [Statement(RETURN, ALLOW)];
      ConcatAssociates(first, CompileAll(abi, rules[1..]), [Statement(RETURN, ALLOW)]);
      HoldsConcat(program, at, first, rest);
      CompiledRule(abi, rules[0], program, data, at, acc);
      match Decide(abi, rules[0], acc, Arg0(data))
      case Verdict(_) =>
      case Continue(acc') => CompiledRules(abi, rules[1..], program, data, at + |first|, acc');
    }
  }

  lemma {:induction false} PrologueRuns(abi: Abi, program: seq<Instruction>, data: Data, acc: word)
    requires Holds(program, 0, Prologue(abi))
    ensures Run(program, data, 0, acc) == if Arch(data) != abi.arch then Returned(KILL) else Run(program, data, 4, Number(data))
  {
    var block := Prologue(abi);
    assert program[0 + 0] == block[0] && program[0 + 1] == block[1];
    assert program[0 + 2] == block[2] && program[0 + 3] == block[3];
    RunLoad(program, data, 0, acc, 4);
    RunJump(program, data, 1, Arch(data), abi.arch, 1, 0);
    RunReturn(program, data, 2, Arch(data), KILL);
    RunLoad(program, data, 3, Arch(data), 0);
  }

  /** The emitted program always returns: kill for a foreign architecture, and otherwise the verdict
      of its rules on the call's number and first argument. */
  lemma {:induction false} ProgramComputesVerdict(abi: Abi, rules: seq<Rule>, data: Data, acc: word)
    ensures Run(Program(abi, rules), data, 0, acc)
            == Returned(if Arch(data) != abi.arch then KILL else DecideAll(abi, rules, Number(data), Arg0(data)))
  {
    var program := Program(abi, rules);
    var tail := CompileAll(abi, rules) + [Statement(RETURN, ALLOW)];
    assert program == Prologue(abi) + tail;
    assert Holds(program, 0, Prologue(abi) + tail);
    HoldsConcat(program, 0, Prologue(abi), tail);
    PrologueRuns(abi, program, data, acc);
    CompiledRules(abi, rules, program, data, 4, Number(data));
  }

  // ----- the policy -----

  lemma {:induction false} DenyAllVerdict(abi: Abi, numbers: seq<word>, rest: seq<Rule>, acc: word, arg0: word)
    ensures DecideAll(abi, DenyAll(numbers) + rest, acc, arg0)
            == if acc in numbers then ERRNO | EPERM else DecideAll(abi, rest, acc, arg0)
  {
    if numbers == [] {
      assert DenyAll(numbers) + rest == rest;
    } else {
      var rules := DenyAll(numbers) + rest;
      assert rules[0] == Deny(numbers[0], EPERM);
      assert rules[1..] == DenyAll(numbers[1..]) + rest;
      DenyAllVerdict(abi, numbers[1..], rest, acc, arg0);
      assert numbers == [numbers[0]] + numbers[1..];
    }
  }

  predicate Sensitive(option: word) {
    option == PR_SET_DUMPABLE || option == PR_SET_PTRACER || option == PR_SET_PDEATHSIG
  }

  /** Numbers that a headless host may never call. */
  function HeadlessBlocked(abi: Abi, blocked: seq<word>): seq<word> {
    blocked + [abi.clone, abi.clone3, abi.socket, abi.socketpair]
  }

  /** Headless hosts: a foreign architecture is killed, a blocked number gets EPERM, and everything
      else is allowed; a prctl is judged by its option, which is refused when sensitive and also
      when it happens to equal a blocked number. */
  lemma {:induction false} HeadlessVerdict(abi: Abi, blocked: seq<word>, data: Data)
    ensures var all := HeadlessBlocked(abi, blocked);
            var judged := if Number(data) == abi.prctl then Arg0(data) else Number(data);
            Run(Program(abi, Rules(abi, false, blocked)), data, 0, 0) == Returned(
              if Arch(data) != abi.arch then KILL
              else if Number(data) == abi.prctl && Sensitive(Arg0(data)) then ERRNO | EPERM
              else if judged in all then ERRNO | EPERM
              else ALLOW)
  {
    var rules := Rules(abi, false, blocked);
    ProgramComputesVerdict(abi, rules, data, 0);
    var all := HeadlessBlocked(abi, blocked);
    assert rules[0] == SensitivePrctl && rules[1..] == DenyAll(all) + [];
    DenyAllVerdict(abi, all, [], Number(data), Arg0(data));
    DenyAllVerdict(abi, all, [], Arg0(data), Arg0(data));
  }

  /** What a live filter says once the accumulator holds `acc` behind the clone rules. */
  function SocketVerdict(abi: Abi, blocked: seq<word>, acc: word, arg0: word): word {
    if acc in blocked then ERRNO | EPERM
    else if acc == abi.socket && arg0 != AF_UNIX then ERRNO | EAFNOSUPPORT
    else if (if acc == abi.socket then AF_UNIX else acc) == abi.socketpair && arg0 != AF_UNIX then ERRNO | EAFNOSUPPORT
    else ALLOW
  }

  /** What a live filter says about a number that is not, or no longer, a prctl. */
  function LiveVerdict(abi: Abi, blocked: seq<word>, acc: word, arg0: word): word {
    if acc == abi.clone3 then ERRNO | ENOSYS
    else if acc == abi.clone then
      if arg0 & THREAD_FLAGS == THREAD_FLAGS then SocketVerdict(abi, blocked, THREAD_FLAGS, arg0) else ERRNO | EPERM
    else SocketVerdict(abi, blocked, acc, arg0)
  }

  lemma {:induction false} OneRule(abi: Abi, rule: Rule, acc: word, arg0: word)
    ensures DecideAll(abi, [rule], acc, arg0) ==
              match Decide(abi, rule, acc, arg0)
              case Verdict(value) => value
              case Continue(_) => ALLOW
  {
    assert [rule][1..] == [];
  }

  lemma {:induction false} SocketRules(abi: Abi, blocked: seq<word>, acc: word, arg0: word)
    ensures DecideAll(abi, DenyAll(blocked) + [UnixOnly(abi.socket), UnixOnly(abi.socketpair)], acc, arg0)
            == SocketVerdict(abi, blocked, acc, arg0)
  {
    var tail := [UnixOnly(abi.socket), UnixOnly(abi.socketpair)];
    DenyAllVerdict(abi, blocked, tail, acc, arg0);
    assert tail[0] == UnixOnly(abi.socket) && tail[1..] == [UnixOnly(abi.socketpair)];
    OneRule(abi, UnixOnly(abi.socketpair), acc, arg0);
    OneRule(abi, UnixOnly(abi.socketpair), AF_UNIX, arg0);
  }

  lemma {:induction false} LiveRules(abi: Abi, blocked: seq<word>, acc: word, arg0: word)
    ensures DecideAll(abi, Rules(abi, true, blocked)[1..], acc, arg0) == LiveVerdict(abi, blocked, acc, arg0)
  {
    var rules := Rules(abi, true, blocked);
    var tail := DenyAll(blocked) + [UnixOnly(abi.socket), UnixOnly(abi.socketpair)];
    assert rules[1..][0] == Deny(abi.clone3, ENOSYS);
    assert rules[1..][1..][0] == ThreadCloneOnly;
    assert rules[1..][1..][1..] == tail;
    SocketRules(abi, blocked, acc, arg0);
    SocketRules(abi, blocked, THREAD_FLAGS, arg0);
  }

  /** Live hosts, exactly, for every call: the prctl rule hands its option to the rules behind it. */
  lemma {:induction false} LiveProgramVerdict(abi: Abi, blocked: seq<word>, data: Data)
    ensures Run(Program(abi, Rules(abi, true, blocked)), data, 0, 0) == Returned(
              if Arch(data) != abi.arch then KILL
              else if Number(data) != abi.prctl then LiveVerdict(abi, blocked, Number(data), Arg0(data))
              else if Sensitive(Arg0(data)) then ERRNO | EPERM
              else LiveVerdict(abi, blocked, Arg0(data), Arg0(data)))
  {
    var rules := Rules(abi, true, blocked);
    ProgramComputesVerdict(abi, rules, data, 0);
    assert rules[0] == SensitivePrctl;
    LiveRules(abi, blocked, Number(data), Arg0(data));
    LiveRules(abi, blocked, Arg0(data), Arg0(data));
  }

  /** The specially handled numbers are told apart from each other, from the blocked ones and from
      the argument values that rules leave in the accumulator. */
  ghost predicate Separated(abi: Abi, blocked: seq<word>) {
    && abi.prctl !in {abi.clone, abi.clone3, abi.socket, abi.socketpair}
    && abi.clone !in {abi.clone3, abi.socket, abi.socketpair}
    && abi.clone3 !in {abi.socket, abi.socketpair}
    && abi.socket != abi.socketpair
    && (forall n :: n in {abi.prctl, abi.clone, abi.clone3, abi.socket, abi.socketpair} ==> n !in blocked)
    && THREAD_FLAGS !in blocked && THREAD_FLAGS !in {abi.socket, abi.socketpair}
    && AF_UNIX != abi.socketpair
  }

  /** The live policy as intended, for every number but prctl. */
  lemma {:induction false} LivePolicy(abi: Abi, blocked: seq<word>, data: Data)
    requires Separated(abi, blocked) && Arch(data) == abi.arch && Number(data) != abi.prctl
    ensures Run(Program(abi, Rules(abi, true, blocked)), data, 0, 0) == Returned(
              if Number(data) in blocked then ERRNO | EPERM
              else if Number(data) == abi.clone3 then ERRNO | ENOSYS
              else if Number(data) == abi.clone then
                if Arg0(data) & THREAD_FLAGS == THREAD_FLAGS then ALLOW else ERRNO | EPERM
              else if Number(data) == abi.socket || Number(data) == abi.socketpair then
                if Arg0(data) == AF_UNIX then ALLOW else ERRNO | EAFNOSUPPORT
              else ALLOW)
  {
    LiveProgramVerdict(abi, blocked, data);
  }

  /** A prctl with an ordinary option is not always allowed: the option is compared with syscall
      numbers, so every option that equals a blocked number is refused. */
  lemma {:induction false} PrctlOptionTakenForNumber(abi: Abi, live: bool, blocked: seq<word>, data: Data)
    requires Arch(data) == abi.arch && Number(data) == abi.prctl
    requires Arg0(data) in blocked && Arg0(data) != abi.clone3 && Arg0(data) != abi.clone
    ensures Run(Program(abi, Rules(abi, live, blocked)), data, 0, 0) == Returned(ERRNO | EPERM)
  {
    if live {
      LiveProgramVerdict(abi, blocked, data);
    } else {
      HeadlessVerdict(abi, blocked, data);
    }
  }

  /** In both modes a prctl is allowed exactly when its option is neither sensitive nor equal to a
      number that the filter handles. */
  lemma {:induction false} PrctlAllowedExactly(abi: Abi, live: bool, blocked: seq<word>, data: Data)
    requires Separated(abi, blocked) && abi.clone & THREAD_FLAGS != THREAD_FLAGS
    requires AF_UNIX !in {abi.socket, abi.socketpair}
    requires Arch(data) == abi.arch && Number(data) == abi.prctl
    ensures Run(Program(abi, Rules(abi, live, blocked)), data, 0, 0) == Returned(ALLOW) <==>
              !Sensitive(Arg0(data)) && Arg0(data) !in HeadlessBlocked(abi, blocked)
  {
    if live {
      LiveProgramVerdict(abi, blocked, data);
      assert forall n :: n in HeadlessBlocked(abi, blocked) <==>
               n in blocked || n == abi.clone || n == abi.clone3 || n == abi.socket || n == abi.socketpair;
    } else {
      HeadlessVerdict(abi, blocked, data);
    }
  }

  // ----- on x86-64 -----

  /** The Linux numbers of the specially handled calls on x86-64. */
  const X86_64 := Abi(0xc000_003e, 157, 56, 435, 41, 53)

  /** execve, execveat, kill, tkill, tgkill, rt_sigqueueinfo, rt_tgsigqueueinfo, pidfd_open, pidfd_getfd, pidfd_send_signal */
  const SIGNALLING_X86_64: seq<word> := [59, 322, 62, 200, 234, 129, 297, 434, 438, 424]

  /** ptrace, process_vm_readv, process_vm_writev, process_madvise, kcmp, prlimit64, setpriority, sched_setaffinity, sched_setscheduler, sched_setparam, ioprio_set */
  const TRACING_X86_64: seq<word> := [101, 310, 311, 440, 312, 302, 141, 203, 144, 142, 251]

  /** mount, umount2, pivot_root, chroot, unshare, setns, bpf, perf_event_open, userfaultfd, keyctl, add_key, request_key */
  const MOUNTING_X86_64: seq<word> := [165, 166, 155, 161, 272, 308, 321, 298, 323, 250, 248, 249]

  /** init_module, finit_module, delete_module, kexec_load, reboot, swapon, swapoff, open_by_handle_at, name_to_handle_at, fanotify_init */
  const MODULES_X86_64: seq<word> := [175, 313, 176, 246, 169, 167, 168, 304, 303, 300]

  /** io_uring_setup, io_uring_register, io_uring_enter, personality, acct, fork, vfork */
  const REST_X86_64: seq<word> := [425, 427, 426, 135, 163, 57, 58]

  /** The numbers that `blocked_syscalls` lists there, in its order. */
  const BLOCKED_X86_64: seq<word> :=
    SIGNALLING_X86_64 + TRACING_X86_64 + MOUNTING_X86_64 + MODULES_X86_64 + REST_X86_64

  const PR_SET_SYSCALL_USER_DISPATCH: word := 59

  /** There the handled numbers, the blocked ones and the leftovers in the accumulator are told apart. */
  lemma {:induction false} X86IsSeparated()
    ensures Separated(X86_64, BLOCKED_X86_64)
    ensures X86_64.clone & THREAD_FLAGS != THREAD_FLAGS && AF_UNIX !in {X86_64.socket, X86_64.socketpair}
  {
    var handled := [X86_64.prctl, X86_64.clone, X86_64.clone3, X86_64.socket, X86_64.socketpair, THREAD_FLAGS];
    forall i | 0 <= i < |handled| ensures handled[i] !in BLOCKED_X86_64 {
      NotBlockedOnX86(handled[i]);
    }
    assert handled[0] == X86_64.prctl && handled[1] == X86_64.clone && handled[2] == X86_64.clone3
           && handled[3] == X86_64.socket && handled[4] == X86_64.socketpair && handled[5] == THREAD_FLAGS;
  }

  lemma {:induction false} NotBlockedOnX86(n: word)
    requires n in {X86_64.prctl, X86_64.clone, X86_64.clone3, X86_64.socket, X86_64.socketpair, THREAD_FLAGS}
    ensures n !in BLOCKED_X86_64
  {
    assert n !in SIGNALLING_X86_64;
    assert n !in TRACING_X86_64;
    assert n !in MOUNTING_X86_64;
    assert n !in MODULES_X86_64;
    assert n !in REST_X86_64;
  }

  /** There, in both modes, a prctl whose option is neither sensitive nor a handled number is allowed,
      and every other one is not. */
  lemma {:induction false} X86PrctlAllowedExactly(live: bool, data: Data)
    requires Arch(data) == X86_64.arch && Number(data) == X86_64.prctl
    ensures Run(Program(X86_64, Rules(X86_64, live, BLOCKED_X86_64)), data, 0, 0) == Returned(ALLOW) <==>
              !Sensitive(Arg0(data)) && Arg0(data) !in HeadlessBlocked(X86_64, BLOCKED_X86_64)
  {
    X86IsSeparated();
    PrctlAllowedExactly(X86_64, live, BLOCKED_X86_64, data);
  }

  /** An ordinary option is refused there in both modes: PR_SET_SYSCALL_USER_DISPATCH is none of the
      three sensitive options, but its value is the number of execve. */
  lemma {:induction false} UserDispatchIsRefused(live: bool, data: Data)
    requires Arch(data) == X86_64.arch && Number(data) == X86_64.prctl && Arg0(data) == PR_SET_SYSCALL_USER_DISPATCH
    ensures !Sensitive(Arg0(data))
    ensures Run(Program(X86_64, Rules(X86_64, live, BLOCKED_X86_64)), data, 0, 0) == Returned(ERRNO | EPERM)
  {
    assert SIGNALLING_X86_64[0] == PR_SET_SYSCALL_USER_DISPATCH;
    PrctlOptionTakenForNumber(X86_64, live, BLOCKED_X86_64, data);
  }
}
