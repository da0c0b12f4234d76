/** The pass that keeps memory accesses inside the sandbox and divisions from faulting. */
module SandboxPass {
  import opened Arithmetic

  // ----- Arithmetic -----

  const WORD: int := 0x1_0000_0000_0000_0000

  /** A quotient fits when the upper half of the dividend is below the divisor. */
  lemma QuotientFits(high: nat, low: nat, base: nat, divisor: nat)
    requires high < divisor && low < base
    ensures (high * base + low) / divisor < base
  {
    var n := high * base + low;
    MulMono(high + 1, divisor, base);
    assert (high + 1) * base == high * base + base;
    assert n < divisor * base;
    DivBelow(n, divisor, base);
  }

  lemma MulMono(a: nat, b: nat, c: nat)
    requires a <= b
    ensures a * c <= b * c
  {
    assert b * c - a * c == (b - a) * c;
  }

  lemma DivBelow(n: nat, d: nat, limit: nat)
    requires d > 0 && n < d * limit
    ensures n / d < limit
  {
    assert n == n / d * d + n % d;
    if n / d >= limit {
      MulMono(limit, n / d, d);
    }
  }

  // ----- Machine -----

  datatype Reg = RAX | RDX | R14 | Other(index: nat)

  /** Operand widths, in bytes. */
  datatype Width = W8 | W16 | W32 | W64 {
    function Bytes(): nat {
      match this case W8 => 1 case W16 => 2 case W32 => 4 case W64 => 8
    }

    function Limit(): (r: nat)
      ensures r > 1
    {
      match this case W8 => 0x100 case W16 => 0x1_0000 case W32 => 0x1_0000_0000 case W64 => WORD
    }
  }

  /** The low part of a register, or memory at R14 plus a register. */
  datatype Operand = Register(reg: Reg, width: Width) | Memory(reg: Reg, width: Width)

  type Word = x: int | 0 <= x < WORD

  type Byte = b: int | 0 <= b < 256

  datatype Access = Access(address: int, size: nat)

  datatype State = State(regs: Reg -> Word, mem: int -> Byte, accesses: set<Access>) {
    function Address(reg: Reg): Word {
      (regs(R14) + regs(reg)) % WORD
    }

    function Read(op: Operand): (r: nat)
      ensures r < op.width.Limit()
    {
      if op.Register? then regs(op.reg) % op.width.Limit()
      else
        LoadFits(mem, Address(op.reg), op.width);
        Load(mem, Address(op.reg), op.width.Bytes())
    }

    /** A 32-bit result clears the upper half of a register; narrower ones leave the rest alone. */
    function Write(op: Operand, v: nat): State
      requires v < op.width.Limit()
    {
      if op.Register? then
        var was := regs(op.reg);
        this.(regs := Set(regs, op.reg, if op.width.W8? || op.width.W16? then was - was % op.width.Limit() + v else v))
      else
        this.(mem := Store(mem, Address(op.reg), op.width.Bytes(), v))
    }

    /** A memory operand is an access. */
    function Touch(op: Operand): State {
      if op.Register? then this
      else this.(accesses := accesses + {Access(Address(op.reg), op.width.Bytes())})
    }
  }

  function Set(regs: Reg -> Word, reg: Reg, v: Word): Reg -> Word {
    (r: Reg) => if r == reg then v else regs(r)
  }

  function Load(mem: int -> Byte, a: int, n: nat): nat
    decreases n
  {
    if n == 0 then 0 else mem(a) + 256 * Load(mem, a + 1, n - 1)
  }

  function Store(mem: int -> Byte, a: int, n: nat, v: nat): int -> Byte
    decreases n
  {
    if n == 0 then mem
    else
      var rest := Store(mem, a + 1, n - 1, v / 256);
      (x: int) => if x == a then v % 256 else rest(x)
  }

  lemma {:induction false} LoadBelow(mem: int -> Byte, a: int, n: nat)
    ensures Load(mem, a, n) < Power(256, n)
    decreases n
  {
    if n > 0 {
      LoadBelow(mem, a + 1, n - 1);
    }
  }

  lemma PowersOf256()
    ensures Power(256, 1) == 0x100 && Power(256, 2) == 0x1_0000
    ensures Power(256, 4) == 0x1_0000_0000 && Power(256, 8) == WORD
  {
    assert Power(256, 5) == 0x100_0000_0000;
  }

  lemma LimitIsPower(w: Width)
    ensures w.Limit() == Power(256, w.Bytes())
  {
    PowersOf256();
  }

  lemma LoadFits(mem: int -> Byte, a: int, w: Width)
    ensures Load(mem, a, w.Bytes()) < w.Limit()
  {
    LoadBelow(mem, a, w.Bytes());
    LimitIsPower(w);
  }

  lemma {:induction false} LoadSame(mem: int -> Byte, mem': int -> Byte, a: int, n: nat)
    requires forall x :: a <= x < a + n ==> mem(x) == mem'(x)
    ensures Load(mem, a, n) == Load(mem', a, n)
    decreases n
  {
    if n > 0 {
      LoadSame(mem, mem', a + 1, n - 1);
    }
  }

  lemma {:induction false} LoadOfStore(mem: int -> Byte, a: int, n: nat, v: nat)
    requires v < Power(256, n)
    ensures Load(Store(mem, a, n, v), a, n) == v
    decreases n
  {
    if n > 0 {
      var rest := Store(mem, a + 1, n - 1, v / 256);
      assert v / 256 < Power(256, n - 1);
      LoadOfStore(mem, a + 1, n - 1, v / 256);
      LoadSame(Store(mem, a, n, v), rest, a + 1, n - 1);
    }
  }

  // ----- Instrumentation -----

  datatype Inst =
    | AndImm(dst: Operand, mask: nat)
    | AndOp(dst: Operand, src: Operand)
    | OrOne(dst: Operand)
    | MovOne(dst: Operand)
    | ShrOne(dst: Operand)
    | AddBase(reg: Reg)
    | Div(divisor: Operand)

  datatype Outcome = Ok(s: State) | DivideError

  /** The dividend: AX, or the D and A registers together. */
  function Dividend(s: State, w: Width): nat {
    if w.W8? then s.regs(RAX) % 0x1_0000
    else s.regs(RDX) % w.Limit() * w.Limit() + s.regs(RAX) % w.Limit()
  }

  /** What the instructions do. */
  function Exec(s: State, inst: Inst): Outcome {
    match inst
    case AndImm(dst, mask) => Ok(s.Touch(dst).Write(dst, BitAnd(s.Read(dst), mask)))
    case AndOp(dst, src) => Ok(s.Touch(src).Write(dst, BitAnd(s.Read(dst), s.Read(src))))
    case OrOne(dst) => Ok(s.Touch(dst).Write(dst, WithOne(s.Read(dst), dst.width)))
    case MovOne(dst) => Ok(s.Write(dst, 1))
    case ShrOne(dst) => Ok(s.Write(dst, s.Read(dst) / 2))
    case AddBase(reg) => Ok(s.(regs := Set(s.regs, reg, (s.regs(reg) + s.regs(R14)) % WORD)))
    case Div(divisor) =>
      var v := s.Read(divisor);
      if v == 0 || Dividend(s, divisor.width) / v >= divisor.width.Limit() then DivideError
      else Ok(Divided(s.Touch(divisor), divisor.width, Dividend(s, divisor.width) / v, Dividend(s, divisor.width) % v))
  }

  /** An odd number: the operand with its lowest bit set. */
  function WithOne(x: nat, w: Width): (r: nat)
    requires x < w.Limit()
    ensures x <= r < w.Limit() && r % 2 == 1
  {
    x - x % 2 + 1
  }

  /** Quotient and remainder, in AL and AH or in the A and D registers. */
  function Divided(s: State, w: Width, q: nat, r: nat): State
    requires q < w.Limit() && r < w.Limit()
  {
    if w.W8? then s.Write(Register(RAX, W16), r * 0x100 + q)
    else s.Write(Register(RAX, w), q).Write(Register(RDX, w), r)
  }

  function Run(s: State, code: seq<Inst>): Outcome
    decreases |code|
  {
    if code == [] then Ok(s)
    else
      var next := Exec(s, code[0]);
      if next.Ok? then Run(next.s, code[1..]) else next
  }

  /** Before an access its address register is masked; where the address is the register itself, R14 is
      added to it then. */
  function SandboxMemory(reg: Reg, implicit: bool, mask: nat): seq<Inst> {
    [AndImm(Register(reg, W64), mask)] + if implicit then [AddBase(reg)] else []
  }

  /** What becomes of a division. */
  function SandboxDivision(op: Operand): seq<Inst> {
    [OrOne(op)] + Guarded(op)
  }

  function Guarded(op: Operand): seq<Inst> {
    if op.width.W8? then
      if op.Memory? && op.reg == RAX then [] else [MovOne(Register(RAX, W16)), Div(op)]
    else if op.width.W64? || op.reg == RDX then []
    else [AndOp(Register(RDX, op.width), op), ShrOne(Register(RDX, op.width)), Div(op)]
  }

  /** A division survives exactly if it is an 8-bit one whose divisor is not in memory at RAX, or a 16- or 32-bit one
      whose divisor neither is RDX nor is addressed by it. It then comes last; of the others only the OR is left. */
  lemma DivisionSurvives(op: Operand)
    ensures Div(op) in SandboxDivision(op) <==>
              || (op.width.W8? && op != Memory(RAX, W8))
              || ((op.width.W16? || op.width.W32?) && op.reg != RDX)
    ensures var code := SandboxDivision(op);
            if Div(op) in code then code[|code| - 1] == Div(op) else code == [OrOne(op)]
  {
    var code, guarded := SandboxDivision(op), Guarded(op);
    assert code == [OrOne(op)] + guarded;
    if guarded != [] {
      assert code[|code| - 1] == guarded[|guarded| - 1] == Div(op);
    }
  }

  // ----- Divisions -----

  lemma ReadBack(s: State, op: Operand, v: nat)
    requires v < op.width.Limit()
    ensures s.Write(op, v).Read(op) == v
  {
    if op.Memory? {
      MemoryReadBack(s, op, v);
    } else {
      LowPart(s.regs(op.reg), op.width, v);
    }
  }

  lemma MemoryReadBack(s: State, op: Operand, v: nat)
    requires op.Memory? && v < op.width.Limit()
    ensures s.Write(op, v).Read(op) == v
  {
    LimitIsPower(op.width);
    LoadOfStore(s.mem, s.Address(op.reg), op.width.Bytes(), v);
  }

  lemma LowPart(was: nat, w: Width, v: nat)
    requires v < w.Limit()
    ensures (was - was % w.Limit() + v) % w.Limit() == v && v % w.Limit() == v
  {
    var n := w.Limit();
    Remainder(was / n, n, v, was - was % n + v);
    Remainder(0, n, v, v);
  }

  lemma Remainder(k: nat, n: nat, v: nat, a: nat)
    requires v < n && a == k * n + v
    ensures a % n == v
  {
    var q, r := a / n, a % n;
    assert a == q * n + r;
    assert (k + 1) * n == k * n + n && (q + 1) * n == q * n + n;
    if q > k {
      MulMono(k + 1, q, n);
    } else if q < k {
      MulMono(q + 1, k, n);
    }
  }

  /** Writing a register leaves the operands that do not use it. */
  lemma OthersStay(s: State, reg: Reg, w: Width, v: nat, op: Operand)
    requires v < w.Limit() && reg != R14 && reg != op.reg
    ensures s.Write(Register(reg, w), v).Read(op) == s.Read(op)
    ensures s.Write(Register(reg, w), v).Address(op.reg) == s.Address(op.reg)
  {
  }

  lemma RunOne(s: State, inst: Inst, rest: seq<Inst>)
    requires Exec(s, inst).Ok?
    ensures Run(s, [inst] + rest) == Run(Exec(s, inst).s, rest)
  {
    assert ([inst] + rest)[1..] == rest;
  }

  /** All that was accessed since is the operand. */
  ghost predicate OnlyAccesses(s: State, t: State, op: Operand) {
    t.accesses <= s.accesses + if op.Memory? then {Access(s.Address(op.reg), op.width.Bytes())} else {}
  }

  lemma NarrowDivision(s: State, op: Operand)
    requires op.reg != R14 && op.width.W8? && !(op.Memory? && op.reg == RAX)
    requires s.Read(op) % 2 == 1
    ensures Run(s, Guarded(op)).Ok? && OnlyAccesses(s, Run(s, Guarded(op)).s, op)
  {
    var ax := Register(RAX, W16);
    var t := s.Write(ax, 1);
    RunOne(s, MovOne(ax), [Div(op)]);
    AxIsOne(s, op);
    assert 1 / t.Read(op) <= 1;
    RunOne(t, Div(op), []);
  }

  /** The dividend is one, and so is the divisor where it is part of it. */
  lemma AxIsOne(s: State, op: Operand)
    requires op.reg != R14 && op.width.W8? && !(op.Memory? && op.reg == RAX)
    requires s.Read(op) % 2 == 1
    ensures var t := s.Write(Register(RAX, W16), 1);
            && Dividend(t, W8) == 1 && t.Read(op) >= 1
            && (op.Memory? ==> t.Address(op.reg) == s.Address(op.reg))
  {
    ReadBack(s, Register(RAX, W16), 1);
    if op.reg == RAX {
      assert s.Write(Register(RAX, W16), 1).Read(op) == 1;
    } else {
      OthersStay(s, RAX, W16, 1, op);
    }
  }

  lemma WideDivision(s: State, op: Operand)
    requires op.reg != R14 && op.reg != RDX && (op.width.W16? || op.width.W32?)
    requires s.Read(op) % 2 == 1
    ensures Run(s, Guarded(op)).Ok? && OnlyAccesses(s, Run(s, Guarded(op)).s, op)
  {
    var d, v := Register(RDX, op.width), s.Read(op);
    var high := BitAnd(s.Read(d), v);
    SetUpper(s.Touch(op), op, high);
    var t := s.Touch(op).Write(d, high);
    SetUpper(t, op, high / 2);
    var u := t.Write(d, high / 2);
    UpperBelowDivisor(u, op);
    RunOne(s, AndOp(d, op), [ShrOne(d), Div(op)]);
    RunOne(t, ShrOne(d), [Div(op)]);
  }

  /** Writing the upper half of the dividend leaves the divisor. */
  lemma SetUpper(s: State, op: Operand, v: nat)
    requires op.reg != R14 && op.reg != RDX && v < op.width.Limit()
    ensures var t := s.Write(Register(RDX, op.width), v);
            && t.Read(Register(RDX, op.width)) == v && t.Read(op) == s.Read(op)
            && t.Address(op.reg) == s.Address(op.reg) && t.accesses == s.accesses
  {
    ReadBack(s, Register(RDX, op.width), v);
    OthersStay(s, RDX, op.width, v, op);
  }

  lemma UpperBelowDivisor(u: State, op: Operand)
    requires !op.width.W8? && u.Read(Register(RDX, op.width)) < u.Read(op)
    ensures Run(u, [Div(op)]).Ok? && OnlyAccesses(u, Run(u, [Div(op)]).s, op)
  {
    var w := op.width;
    QuotientFits(u.regs(RDX) % w.Limit(), u.regs(RAX) % w.Limit(), w.Limit(), u.Read(op));
    RunOne(u, Div(op), []);
  }

  /** No division that is left faults: its divisor is not zero and its quotient fits. The only memory
      accessed by the added instructions and the division is the operand of the division. */
  lemma DivisionIsSafe(s: State, op: Operand)
    requires op.reg != R14
    ensures Run(s, SandboxDivision(op)).Ok? && OnlyAccesses(s, Run(s, SandboxDivision(op)).s, op)
  {
    var v := WithOne(s.Read(op), op.width);
    var t := s.Touch(op).Write(op, v);
    RunOne(s, OrOne(op), Guarded(op));
    ReadBack(s.Touch(op), op, v);
    assert op.Memory? ==> t.Address(op.reg) == s.Address(op.reg);
    if Guarded(op) != [] {
      if op.width.W8? {
        NarrowDivision(t, op);
      } else {
        WideDivision(t, op);
      }
    }
  }

  // ----- Bounds -----

  /** The sandbox: a main region of 2^bits bytes at its base, then an assist region. The mask has some low bits
      zeroed, and the prologue moves R14 from the base. */
  datatype Sandbox = Sandbox(base: nat, bits: nat, zeroed: nat, assist: nat, shift: nat) {
    ghost predicate Valid() {
      zeroed <= bits && End() <= WORD
    }

    ghost function End(): int {
      base + Pow2(bits) + assist
    }

    ghost function Mask(): (m: nat)
      requires Valid()
    {
      Pow2Grows(zeroed, bits);
      Pow2(bits) - Pow2(zeroed)
    }

    ghost predicate Contains(a: Access) {
      base <= a.address && a.address + a.size <= End()
    }

    /** What a masked access of a size needs. */
    ghost predicate Fits(size: nat) {
      shift + size <= assist + Pow2(zeroed)
    }
  }

  /** The mask changes its register and nothing else. */
  lemma MaskStep(s: State, reg: Reg, mask: nat)
    ensures Exec(s, AndImm(Register(reg, W64), mask)) == Ok(s.(regs := Set(s.regs, reg, BitAnd(s.regs(reg), mask))))
  {
    assert s.Read(Register(reg, W64)) == s.regs(reg);
  }

  /** The address of a sandboxed operand: R14 plus its register or, where it is implicit, the register. */
  function AddressOf(s: State, reg: Reg, implicit: bool): Word {
    if implicit then s.regs(reg) else s.Address(reg)
  }

  /** What the address is after the instrumentation of a memory access, in both forms. */
  lemma MaskedAddress(box: Sandbox, s: State, reg: Reg, implicit: bool) returns (t: State)
    requires box.Valid() && s.regs(R14) == box.base + box.shift < WORD && reg != R14
    ensures Run(s, SandboxMemory(reg, implicit, box.Mask())) == Ok(t) && t.accesses == s.accesses
    ensures AddressOf(t, reg, implicit) == (box.base + box.shift + BitAnd(s.regs(reg), box.Mask())) % WORD
  {
    var mask := AndImm(Register(reg, W64), box.Mask());
    MaskStep(s, reg, box.Mask());
    t := Exec(s, mask).s;
    if implicit {
      RunOne(s, mask, [AddBase(reg)]);
      RunOne(t, AddBase(reg), []);
      assert [AddBase(reg)] + [] == [AddBase(reg)];
      t := Exec(t, AddBase(reg)).s;
    } else {
      RunOne(s, mask, []);
    }
  }

  /** Masked accesses of a size stay in the sandbox, whatever the register holds, exactly when the part of them
      that can stick out of the main region fits the assist region. */
  lemma MaskedStaysInside(box: Sandbox, size: nat)
    requires box.Valid() && size > 0
    ensures (forall x: Word :: StaysInside(box, size, x)) <==> box.Fits(size)
  {
    var mask: Word := box.Mask();
    BitAndSelf(mask);
    assert StaysInside(box, size, mask) <==> box.Fits(size);
    forall x: Word ensures box.Fits(size) ==> StaysInside(box, size, x) {
    }
  }

  ghost predicate StaysInside(box: Sandbox, size: nat, x: Word)
    requires box.Valid()
  {
    box.Contains(Access(box.base + box.shift + BitAnd(x, box.Mask()), size))
  }

  lemma MaskedAddressInside(box: Sandbox, size: nat, x: Word)
    requires box.Valid() && size > 0 && box.Fits(size)
    ensures var a := box.base + box.shift + BitAnd(x, box.Mask());
            a % WORD == a && box.Contains(Access(a, size))
  {
    MaskedStaysInside(box, size);
    assert StaysInside(box, size, x);
  }

  /** Any instruction with a memory operand: after its instrumentation the operand is inside the sandbox,
      whatever its register held, as an explicit and as an implicit operand. */
  lemma SandboxedAccess(box: Sandbox, s: State, reg: Reg, implicit: bool, size: nat) returns (t: State)
    requires box.Valid() && size > 0 && box.Fits(size) && s.regs(R14) == box.base + box.shift && reg != R14
    ensures Run(s, SandboxMemory(reg, implicit, box.Mask())) == Ok(t) && t.accesses == s.accesses
    ensures box.Contains(Access(AddressOf(t, reg, implicit), size))
  {
    t := MaskedAddress(box, s, reg, implicit);
    MaskedAddressInside(box, size, s.regs(reg));
  }

  lemma DivisionInside(box: Sandbox, t: State, op: Operand)
    requires op.Memory? && op.reg != R14 && box.Contains(Access(t.Address(op.reg), op.width.Bytes()))
    ensures var r := Run(t, SandboxDivision(op));
            r.Ok? && forall a :: a in r.s.accesses - t.accesses ==> box.Contains(a)
  {
    DivisionIsSafe(t, op);
  }

  /** A division with a masked memory operand: it does not fault, and every access of the instrumentation and
      of the division itself is inside the sandbox. */
  lemma SandboxedDivision(box: Sandbox, s: State, op: Operand) returns (masked: State)
    requires box.Valid() && box.Fits(op.width.Bytes()) && s.regs(R14) == box.base + box.shift
    requires op.Memory? && op.reg != R14
    ensures Run(s, SandboxMemory(op.reg, false, box.Mask())) == Ok(masked) && masked.accesses == s.accesses
    ensures var r := Run(masked, SandboxDivision(op));
            r.Ok? && forall a :: a in r.s.accesses - s.accesses ==> box.Contains(a)
  {
    masked := SandboxedAccess(box, s, op.reg, false, op.width.Bytes());
    DivisionInside(box, masked, op);
  }
}
