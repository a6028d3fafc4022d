/** The processor that runs expanded code: base instructions and jalr, fetched from code memory by address. */
module Processor {
  import opened Bits
  import opened Machine

  datatype Instr = Op(op: Base) | Jump(rd: Reg, rs1: Reg, imm: Imm)

  datatype Cpu = Cpu(pc: int, s: State)

  /** RISC-V Unprivileged ISA, section 2.5: jalr clears the lowest bit of the sum. */
  function JumpTarget(base: int, imm: int): (r: int)
    ensures r % 2 == 0 && r <= (base + imm) % W <= r + 1
  {
    var a := (base + imm) % W;
    a - a % 2
  }

  function Fetch(code: map<int, Instr>, c: Cpu): Cpu
    requires WellTyped(c.s) && c.pc in code
  {
    match code[c.pc]
    case Op(op) => Cpu((c.pc + 4) % W, Step(op, c.s))
    case Jump(rd, rs1, imm) => Cpu(JumpTarget(c.s.regs[rs1], imm), State(SetReg(c.s.regs, rd, (c.pc + 4) % W), c.s.mem))
  }

  /** n instructions lead from c to d. */
  ghost predicate Reaches(code: map<int, Instr>, c: Cpu, n: nat, d: Cpu)
    decreases n
  {
    WellTyped(c.s) && if n == 0 then c == d else c.pc in code && Reaches(code, Fetch(code, c), n - 1, d)
  }

  lemma {:induction false} ReachesTrans(code: map<int, Instr>, c: Cpu, n: nat, d: Cpu, m: nat, e: Cpu)
    requires Reaches(code, c, n, d) && Reaches(code, d, m, e)
    ensures Reaches(code, c, n + m, e)
    decreases n
  {
    hide Fetch, WellTyped;
    if n > 0 {
      ReachesTrans(code, Fetch(code, c), n - 1, d, m, e);
    }
  }

  ghost predicate InstrAt(code: map<int, Instr>, a: int, i: Instr) {
    a in code && code[a] == i
  }

  /** A block of instructions lies at addr. */
  ghost predicate BlockAt(code: map<int, Instr>, addr: int, block: seq<Instr>) {
    forall k | 0 <= k < |block| :: InstrAt(code, addr + 4 * k, block[k])
  }

  function Ops(body: seq<Base>): (r: seq<Instr>)
    ensures |r| == |body|
  {
    seq(|body|, k requires 0 <= k < |body| => Op(body[k]))
  }

  lemma BlockTail(code: map<int, Instr>, addr: int, block: seq<Instr>, k: nat)
    requires BlockAt(code, addr, block) && k <= |block|
    ensures BlockAt(code, addr + 4 * k, block[k..])
  {
    forall j | 0 <= j < |block[k..]|
      ensures InstrAt(code, addr + 4 * k + 4 * j, block[k..][j])
    {
      assert InstrAt(code, addr + 4 * (k + j), block[k + j]);
    }
  }

  /** Straight-line code in memory does what Run says. */
  lemma {:induction false} BlockRuns(code: map<int, Instr>, addr: int, body: seq<Base>, s: State)
    requires WellTyped(s) && BlockAt(code, addr, Ops(body)) && 0 <= addr && addr + 4 * |body| < W
    ensures Reaches(code, Cpu(addr, s), |body|, Cpu(addr + 4 * |body|, Run(body, s)))
    decreases |body|
  {
    hide Step, WellTyped;
    if body != [] {
      assert InstrAt(code, addr + 4 * 0, Ops(body)[0]);
      StepTyped(body[0], s);
      BlockTail(code, addr, Ops(body), 1);
      assert Ops(body)[1..] == Ops(body[1..]);
      BlockRuns(code, addr + 4, body[1..], Step(body[0], s));
    }
  }

  /** A block of straight-line code that ends in a jump. */
  lemma BlockJumps(code: map<int, Instr>, addr: int, body: seq<Base>, rd: Reg, rs1: Reg, imm: Imm, s: State)
    returns (d: Cpu)
    requires WellTyped(s) && BlockAt(code, addr, Ops(body) + [Jump(rd, rs1, imm)]) && 0 <= addr
    requires addr + 4 * |body| + 4 < W
    ensures Reaches(code, Cpu(addr, s), |body| + 1, d)
    ensures var t := Run(body, s);
            d == Cpu(JumpTarget(t.regs[rs1], imm), State(SetReg(t.regs, rd, addr + 4 * |body| + 4), t.mem))
                && WellTyped(d.s)
  {
    hide Step, Run, Reaches;
    var block := Ops(body) + [Jump(rd, rs1, imm)];
    var n := |body|;
    BlockPrefix(code, addr, Ops(body), [Jump(rd, rs1, imm)]);
    BlockRuns(code, addr, body, s);
    assert InstrAt(code, addr + 4 * n, block[n]);
    var c := Cpu(addr + 4 * n, Run(body, s));
    d := Fetch(code, c);
    ReachesOnce(code, c, d);
    ReachesTrans(code, Cpu(addr, s), n, c, 1, d);
  }

  lemma ReachesOnce(code: map<int, Instr>, c: Cpu, d: Cpu)
    requires WellTyped(c.s) && c.pc in code && Fetch(code, c) == d && WellTyped(d.s)
    ensures Reaches(code, c, 1, d)
  {
    hide Fetch, WellTyped;
    assert Reaches(code, d, 0, d);
  }

  lemma BlockPrefix(code: map<int, Instr>, addr: int, a: seq<Instr>, b: seq<Instr>)
    requires BlockAt(code, addr, a + b)
    ensures BlockAt(code, addr, a)
  {
    forall k | 0 <= k < |a|
      ensures InstrAt(code, addr + 4 * k, a[k])
    {
      assert InstrAt(code, addr + 4 * k, (a + b)[k]);
    }
  }
}
