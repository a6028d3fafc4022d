/** What the macros may disturb: gp, tp, the 28 bytes below sp and the compare array. */
module Effects {
  import opened Bits
  import opened Machine
  import opened Scratch
  import opened MiniRv
  import opened Tables

  ghost predicate InScratch(s: State, a: int)
    requires |s.regs| == 32
  {
    s.regs[SP] - 28 <= a < s.regs[SP]
  }

  /** Same memory, but for the scratch bytes and the compare array. */
  ghost predicate Quiet(L: Layout, s: State, t: State) {
    && WellTyped(s) && WellTyped(t)
    && forall a | 0 <= a < W && !InScratch(s, a) && !(L.check <= a < L.check + 256) :: t.mem[a] == s.mem[a]
  }

  lemma QuietRest(L: Layout, s: State, t: State)
    requires Room(s) && Room(t) && t.regs[SP] == s.regs[SP] && Rest(t) == Rest(s)
    ensures Quiet(L, s, t)
  {
    forall a | 0 <= a < W && !InScratch(s, a)
      ensures t.mem[a] == s.mem[a]
    {
      RestDecides(s, t, a);
    }
  }

  lemma QuietTrans(L: Layout, s: State, t: State, u: State)
    requires Quiet(L, s, t) && Quiet(L, t, u) && t.regs[SP] == s.regs[SP]
    ensures Quiet(L, s, u)
  {
  }

  lemma QuietEnd(L: Layout, s: State, u: State, t: State)
    requires Room(s) && Room(u) && u.regs[SP] == s.regs[SP] && Rest(u) == Rest(s) && WellTyped(t) && t.mem == u.mem
    ensures Quiet(L, s, t)
  {
    hide Rest, Room;
    QuietRest(L, s, u);
  }

  /** What a macro leaves: v in rd; gp, tp, the scratch bytes and the compare array may have changed, nothing else. */
  ghost predicate Effect(L: Layout, rd: Reg, v: int, s: State, t: State) {
    && WellTyped(s) && Quiet(L, s, t)
    && t.regs == SetReg(s.regs[GP := t.regs[GP]][TP := t.regs[TP]], rd, v)
  }

  lemma EffectBy(L: Layout, rd: Reg, v: int, s: State, u: State, t: State)
    requires RomOK(L, s) && RomOK(L, u) && u.regs[SP] == s.regs[SP] && Rest(u) == Rest(s) && WellTyped(t)
    requires t == State(SetReg(u.regs, rd, v), u.mem)
    requires forall r | 0 <= r < 32 && r != GP && r != TP :: u.regs[r] == s.regs[r]
    ensures Effect(L, rd, v, s, t)
  {
    hide Rest;
    QuietEnd(L, s, u, t);
  }
}
