/**
 * The register file of the simulated Z80 as the simulator remote sees it:
 * the values it reads in `getRegValues` and writes in `setRegValue`
 * (src/remotes/zxsimulator/zxsimremote.ts).
 */
module Registers {

  type u8 = x: int | 0 <= x < 0x100
  type u16 = x: int | 0 <= x < 0x1_0000

  /** One register bank (`r1` or `r2` of the engine); IX and IY live in bank `r1`. */
  datatype Bank = Bank(a: u8, f: u8, b: u8, c: u8, d: u8, e: u8, h: u8, l: u8,
                       ixh: u8, ixl: u8, iyh: u8, iyl: u8)

  /** All registers of the CPU: PC, SP, the two banks, R and I. */
  datatype Registers = Registers(pc: u16, sp: u16, r1: Bank, r2: Bank, r: u8, i: u8)

  /** An 8-bit storage cell of a bank. */
  datatype Half = AReg | FReg | BReg | CReg | DReg | EReg | HReg | LReg
                | IXHReg | IXLReg | IYHReg | IYLReg

  datatype BankId = Main | Alt

  /** A storage location of the register file. */
  datatype Loc = PcLoc | SpLoc | RLoc | ILoc | Cell(bank: BankId, half: Half)

  /** The register identifiers `setRegValue` switches over (`Z80_REG`). */
  datatype RegId =
    | PC | SP | AF | BC | DE | HL | IX | IY | AF2 | BC2 | DE2 | HL2
    | F | A | C | B | E | D | L | H | IXL | IXH | IYL | IYH
    | F2 | A2 | C2 | B2 | E2 | D2 | L2 | H2 | R | I

  function BankGet(bk: Bank, h: Half): u8 {
    match h
    case AReg => bk.a   case FReg => bk.f   case BReg => bk.b   case CReg => bk.c
    case DReg => bk.d   case EReg => bk.e   case HReg => bk.h   case LReg => bk.l
    case IXHReg => bk.ixh case IXLReg => bk.ixl case IYHReg => bk.iyh case IYLReg => bk.iyl
  }

  /** Writes one cell of a bank; every other cell keeps its value. */
  function BankSet(bk: Bank, h: Half, v: u8): (r: Bank)
    ensures BankGet(r, h) == v
    ensures forall g :: g != h ==> BankGet(r, g) == BankGet(bk, g)
  {
    match h
    case AReg => bk.(a := v)   case FReg => bk.(f := v)   case BReg => bk.(b := v)
    case CReg => bk.(c := v)   case DReg => bk.(d := v)   case EReg => bk.(e := v)
    case HReg => bk.(h := v)   case LReg => bk.(l := v)
    case IXHReg => bk.(ixh := v) case IXLReg => bk.(ixl := v)
    case IYHReg => bk.(iyh := v) case IYLReg => bk.(iyl := v)
  }

  function GetBank(s: Registers, id: BankId): Bank {
    if id == Main then s.r1 else s.r2
  }

  /** The value held at one location. */
  function Get(s: Registers, loc: Loc): nat {
    match loc
    case PcLoc => s.pc
    case SpLoc => s.sp
    case RLoc => s.r
    case ILoc => s.i
    case Cell(bank, half) => BankGet(GetBank(s, bank), half)
  }

  /** The width of the values a location holds. */
  function LocWidth(loc: Loc): nat {
    if loc == PcLoc || loc == SpLoc then 0x1_0000 else 0x100
  }

  /** True for the identifiers of a register pair made of two 8-bit cells. */
  predicate IsPair(id: RegId) {
    match id
    case AF | BC | DE | HL | IX | IY | AF2 | BC2 | DE2 | HL2 => true
    case _ => false
  }

  /** True for the identifiers ending in 2: the alternate bank. */
  predicate IsAlternate(id: RegId) {
    match id
    case AF2 | BC2 | DE2 | HL2 | F2 | A2 | C2 | B2 | E2 | D2 | L2 | H2 => true
    case _ => false
  }

  /** The largest value plus one that a register identifier accepts: 1 or 2 bytes. */
  function Width(id: RegId): nat {
    if id == PC || id == SP || IsPair(id) then 0x1_0000 else 0x100
  }

  /** The single location of an identifier that is not a pair. */
  function CellOf(id: RegId): (loc: Loc)
    requires !IsPair(id)
    ensures loc.Cell? ==> (loc.bank == Alt <==> IsAlternate(id))
    ensures LocWidth(loc) == Width(id)
  {
    match id
    case PC => PcLoc
    case SP => SpLoc
    case F => Cell(Main, FReg)
    case A => Cell(Main, AReg)
    case C => Cell(Main, CReg)
    case B => Cell(Main, BReg)
    case E => Cell(Main, EReg)
    case D => Cell(Main, DReg)
    case L => Cell(Main, LReg)
    case H => Cell(Main, HReg)
    case IXL => Cell(Main, IXLReg)
    case IXH => Cell(Main, IXHReg)
    case IYL => Cell(Main, IYLReg)
    case IYH => Cell(Main, IYHReg)
    case F2 => Cell(Alt, FReg)
    case A2 => Cell(Alt, AReg)
    case C2 => Cell(Alt, CReg)
    case B2 => Cell(Alt, BReg)
    case E2 => Cell(Alt, EReg)
    case D2 => Cell(Alt, DReg)
    case L2 => Cell(Alt, LReg)
    case H2 => Cell(Alt, HReg)
    case R => RLoc
    case I => ILoc
  }

  /**
   * The 8-bit identifiers that make up a pair, high half first. Both halves
   * are cells of the pair's own bank: bank 2 for AF2..HL2, bank 1 otherwise
   * (IX and IY included).
   */
  function HalvesOf(id: RegId): (p: (RegId, RegId))
    requires IsPair(id)
    ensures !IsPair(p.0) && !IsPair(p.1)
  {
    match id
    case AF => (A, F)   case BC => (B, C)   case DE => (D, E)   case HL => (H, L)
    case IX => (IXH, IXL) case IY => (IYH, IYL)
    case AF2 => (A2, F2) case BC2 => (B2, C2) case DE2 => (D2, E2) case HL2 => (H2, L2)
  }

  /** Both halves of a pair belong to the pair's own bank. */
  lemma HalvesInBank(id: RegId)
    requires IsPair(id)
    ensures IsAlternate(HalvesOf(id).0) == IsAlternate(id) == IsAlternate(HalvesOf(id).1)
  {
    match id
    case AF => case BC => case DE => case HL => case IX => case IY =>
    case AF2 => case BC2 => case DE2 => case HL2 =>
  }

  /** The halves of a pair are two different cells. */
  lemma HalvesDistinct(id: RegId)
    requires IsPair(id)
    ensures CellOf(HalvesOf(id).0).Cell? && CellOf(HalvesOf(id).1).Cell?
    ensures CellOf(HalvesOf(id).0) != CellOf(HalvesOf(id).1)
  {
    if IsAlternate(id) {
      AltHalvesDistinct(id);
    } else {
      MainHalvesDistinct(id);
    }
  }

  lemma MainHalvesDistinct(id: RegId)
    requires IsPair(id) && !IsAlternate(id)
    ensures CellOf(HalvesOf(id).0).Cell? && CellOf(HalvesOf(id).1).Cell?
    ensures CellOf(HalvesOf(id).0) != CellOf(HalvesOf(id).1)
  {
    match id
    case AF => case BC => case DE => case HL => case IX => case IY =>
  }

  lemma AltHalvesDistinct(id: RegId)
    requires IsPair(id) && IsAlternate(id)
    ensures CellOf(HalvesOf(id).0).Cell? && CellOf(HalvesOf(id).1).Cell?
    ensures CellOf(HalvesOf(id).0) != CellOf(HalvesOf(id).1)
  {
    match id
    case AF2 => case BC2 => case DE2 => case HL2 =>
  }

  /**
   * The locations an identifier stands for: the high then the low cell of a
   * pair, or the single location of any other register.
   */
  function Targets(id: RegId): (locs: seq<Loc>)
    ensures |locs| == (if IsPair(id) then 2 else 1)
    ensures forall k :: 0 <= k < |locs| && locs[k].Cell? ==> (locs[k].bank == Alt <==> IsAlternate(id))
    ensures IsPair(id) ==> locs[0] != locs[1] && locs[0].Cell? && locs[1].Cell?
  {
    if IsPair(id) then
      HalvesInBank(id);
      HalvesDistinct(id);
      [CellOf(HalvesOf(id).0), CellOf(HalvesOf(id).1)]
    else [CellOf(id)]
  }

  /** The halves of a pair target the pair's high and low cells. */
  lemma HalvesTarget(id: RegId)
    requires IsPair(id)
    ensures Targets(HalvesOf(id).0) == [Targets(id)[0]]
    ensures Targets(HalvesOf(id).1) == [Targets(id)[1]]
  {
  }

  /** Reads the register an identifier names; a pair reads as high * 256 + low. */
  function Read(s: Registers, id: RegId): (v: nat)
    ensures v < Width(id)
  {
    var locs := Targets(id);
    if IsPair(id) then Get(s, locs[0]) * 0x100 + Get(s, locs[1]) else Get(s, locs[0])
  }

  /**
   * The effect of `setRegValue(id, v)`: the register named by `id` reads back
   * as `v`, and no location outside its targets changes.
   */
  function SetReg(s: Registers, id: RegId, v: nat): (r: Registers)
    requires v < Width(id)
    ensures id !in {PC, SP, R, I} ==> r.pc == s.pc && r.sp == s.sp && r.r == s.r && r.i == s.i
  {
    match id
    case PC => s.(pc := v)
    case SP => s.(sp := v)
    case AF => s.(r1 := s.r1.(a := v / 0x100, f := v % 0x100))
    case BC => s.(r1 := s.r1.(b := v / 0x100, c := v % 0x100))
    case DE => s.(r1 := s.r1.(d := v / 0x100, e := v % 0x100))
    case HL => s.(r1 := s.r1.(h := v / 0x100, l := v % 0x100))
    case IX => s.(r1 := s.r1.(ixh := v / 0x100, ixl := v % 0x100))
    case IY => s.(r1 := s.r1.(iyh := v / 0x100, iyl := v % 0x100))
    case AF2 => s.(r2 := s.r2.(a := v / 0x100, f := v % 0x100))
    case BC2 => s.(r2 := s.r2.(b := v / 0x100, c := v % 0x100))
    case DE2 => s.(r2 := s.r2.(d := v / 0x100, e := v % 0x100))
    case HL2 => s.(r2 := s.r2.(h := v / 0x100, l := v % 0x100))
    case F => s.(r1 := s.r1.(f := v))
    case A => s.(r1 := s.r1.(a := v))
    case C => s.(r1 := s.r1.(c := v))
    case B => s.(r1 := s.r1.(b := v))
    case E => s.(r1 := s.r1.(e := v))
    case D => s.(r1 := s.r1.(d := v))
    case L => s.(r1 := s.r1.(l := v))
    case H => s.(r1 := s.r1.(h := v))
    case IXL => s.(r1 := s.r1.(ixl := v))
    case IXH => s.(r1 := s.r1.(ixh := v))
    case IYL => s.(r1 := s.r1.(iyl := v))
    case IYH => s.(r1 := s.r1.(iyh := v))
    case F2 => s.(r2 := s.r2.(f := v))
    case A2 => s.(r2 := s.r2.(a := v))
    case C2 => s.(r2 := s.r2.(c := v))
    case B2 => s.(r2 := s.r2.(b := v))
    case E2 => s.(r2 := s.r2.(e := v))
    case D2 => s.(r2 := s.r2.(d := v))
    case L2 => s.(r2 := s.r2.(l := v))
    case H2 => s.(r2 := s.r2.(h := v))
    case R => s.(r := v)
    case I => s.(i := v)
  }

  /** After `setRegValue(id, v)` the register `id` reads back as `v`. */
  lemma SetRegReadsBack(s: Registers, id: RegId, v: nat)
    requires v < Width(id)
    ensures Read(SetReg(s, id, v), id) == v
  {
    if IsPair(id) {
      PairReadsBack(s, id, v);
    } else {
      SingleReadsBack(s, id, v);
    }
  }

  /** A write to a single register reads back. */
  lemma SingleReadsBack(s: Registers, id: RegId, v: nat)
    requires !IsPair(id) && v < Width(id)
    ensures Read(SetReg(s, id, v), id) == v
  {
    if IsAlternate(id) {
      match id
      case F2 => case A2 => case C2 => case B2 => case E2 => case D2 => case L2 => case H2 =>
    } else if id in {PC, SP, R, I} {
      match id
      case PC => case SP => case R => case I =>
    } else {
      CellReadsBack(s, id, v);
    }
  }

  lemma CellReadsBack(s: Registers, id: RegId, v: nat)
    requires !IsPair(id) && !IsAlternate(id) && id !in {PC, SP, R, I} && v < Width(id)
    ensures Read(SetReg(s, id, v), id) == v
  {
    if id in {IXL, IXH, IYL, IYH} {
      IndexCellReadsBack(s, id, v);
    } else {
      match id
      case F => case A => case C => case B => case E => case D => case L => case H =>
    }
  }

  lemma IndexCellReadsBack(s: Registers, id: RegId, v: nat)
    requires id in {IXL, IXH, IYL, IYH} && v < Width(id)
    ensures Read(SetReg(s, id, v), id) == v
  {
    match id
    case IXL => case IXH => case IYL => case IYH =>
  }

  /** Writing a pair is writing its high half and then its low half. */
  lemma PairIsTwoWrites(s: Registers, id: RegId, v: nat)
    requires IsPair(id) && v < Width(id)
    ensures SetReg(s, id, v) == SetReg(SetReg(s, HalvesOf(id).0, v / 0x100), HalvesOf(id).1, v % 0x100)
  {
    if IsAlternate(id) {
      AltPairIsTwoWrites(s, id, v);
    } else {
      MainPairIsTwoWrites(s, id, v);
    }
  }

  lemma MainPairIsTwoWrites(s: Registers, id: RegId, v: nat)
    requires IsPair(id) && !IsAlternate(id) && v < Width(id)
    ensures SetReg(s, id, v) == SetReg(SetReg(s, HalvesOf(id).0, v / 0x100), HalvesOf(id).1, v % 0x100)
  {
    match id
    case AF => case BC => case DE => case HL => case IX => case IY =>
  }

  lemma AltPairIsTwoWrites(s: Registers, id: RegId, v: nat)
    requires IsPair(id) && IsAlternate(id) && v < Width(id)
    ensures SetReg(s, id, v) == SetReg(SetReg(s, HalvesOf(id).0, v / 0x100), HalvesOf(id).1, v % 0x100)
  {
    match id
    case AF2 => case BC2 => case DE2 => case HL2 =>
  }

  /** A pair write reads back: high byte times 256 plus low byte is the value. */
  lemma PairReadsBack(s: Registers, id: RegId, v: nat)
    requires IsPair(id) && v < Width(id)
    ensures Read(SetReg(s, id, v), id) == v
  {
    var t := SetReg(s, id, v);
    var locs := Targets(id);
    PairHalvesStored(s, id, v);
    assert Get(t, locs[0]) * 0x100 + Get(t, locs[1]) == v / 0x100 * 0x100 + v % 0x100;
  }

  /** A pair write stores the high byte in the first target and the low byte in the second. */
  lemma PairHalvesStored(s: Registers, id: RegId, v: nat)
    requires IsPair(id) && v < Width(id)
    ensures Get(SetReg(s, id, v), Targets(id)[0]) == v / 0x100
    ensures Get(SetReg(s, id, v), Targets(id)[1]) == v % 0x100
  {
    var (hid, lid) := HalvesOf(id);
    var t1 := SetReg(s, hid, v / 0x100);
    PairIsTwoWrites(s, id, v);
    HalvesTarget(id);
    HalvesDistinct(id);
    SingleReadsBack(s, hid, v / 0x100);
    SingleReadsBack(t1, lid, v % 0x100);
    SetRegFrame(t1, lid, v % 0x100, Targets(id)[0]);
  }

  /** `setRegValue(id, v)` changes no location outside the targets of `id`. */
  lemma SetRegFrame(s: Registers, id: RegId, v: nat, loc: Loc)
    requires v < Width(id) && loc !in Targets(id)
    ensures Get(SetReg(s, id, v), loc) == Get(s, loc)
  {
    if IsPair(id) {
      if IsAlternate(id) {
        AltPairFrame(s, id, v, loc);
      } else {
        MainPairFrame(s, id, v, loc);
      }
    } else if IsAlternate(id) {
      AltCellFrame(s, id, v, loc);
    } else if id in {PC, SP, R, I} {
      match id
      case PC => case SP => case R => case I =>
    } else {
      MainCellFrame(s, id, v, loc);
    }
  }

  lemma MainPairFrame(s: Registers, id: RegId, v: nat, loc: Loc)
    requires IsPair(id) && !IsAlternate(id) && v < Width(id) && loc !in Targets(id)
    ensures Get(SetReg(s, id, v), loc) == Get(s, loc)
  {
    match id
    case AF => case BC => case DE => case HL => case IX => case IY =>
  }

  lemma AltPairFrame(s: Registers, id: RegId, v: nat, loc: Loc)
    requires IsPair(id) && IsAlternate(id) && v < Width(id) && loc !in Targets(id)
    ensures Get(SetReg(s, id, v), loc) == Get(s, loc)
  {
    match id
    case AF2 => case BC2 => case DE2 => case HL2 =>
  }

  lemma AltCellFrame(s: Registers, id: RegId, v: nat, loc: Loc)
    requires !IsPair(id) && IsAlternate(id) && v < Width(id) && loc !in Targets(id)
    ensures Get(SetReg(s, id, v), loc) == Get(s, loc)
  {
    match id
    case F2 => case A2 => case C2 => case B2 => case E2 => case D2 => case L2 => case H2 =>
  }

  lemma MainCellFrame(s: Registers, id: RegId, v: nat, loc: Loc)
    requires !IsPair(id) && !IsAlternate(id) && id !in {PC, SP, R, I} && v < Width(id) && loc !in Targets(id)
    ensures Get(SetReg(s, id, v), loc) == Get(s, loc)
  {
    match id
    case F => case A => case C => case B => case E => case D => case L => case H =>
    case IXL => case IXH => case IYL => case IYH =>
  }

  /** Setting the two halves of a pair one after the other composes the pair. */
  lemma HalvesCompose(s: Registers, id: RegId, hi: nat, lo: nat)
    requires IsPair(id) && hi < 0x100 && lo < 0x100
    ensures Read(SetReg(SetReg(s, HalvesOf(id).0, hi), HalvesOf(id).1, lo), id) == hi * 0x100 + lo
  {
    var (hid, lid) := HalvesOf(id);
    var t1 := SetReg(s, hid, hi);
    HalvesTarget(id);
    HalvesDistinct(id);
    SingleReadsBack(s, hid, hi);
    SingleReadsBack(t1, lid, lo);
    SetRegFrame(t1, lid, lo, Targets(id)[0]);
  }

  /**
   * The locations `getRegValues` reports after PC and SP, in its order:
   * bank 1 F,A,C,B,E,D,L,H,IXL,IXH,IYL,IYH, bank 2 F,A,C,B,E,D,L,H, then R and I.
   */
  const Layout: seq<Loc> := [
    Cell(Main, FReg), Cell(Main, AReg), Cell(Main, CReg), Cell(Main, BReg),
    Cell(Main, EReg), Cell(Main, DReg), Cell(Main, LReg), Cell(Main, HReg),
    Cell(Main, IXLReg), Cell(Main, IXHReg), Cell(Main, IYLReg), Cell(Main, IYHReg),
    Cell(Alt, FReg), Cell(Alt, AReg), Cell(Alt, CReg), Cell(Alt, BReg),
    Cell(Alt, EReg), Cell(Alt, DReg), Cell(Alt, LReg), Cell(Alt, HReg),
    RLoc, ILoc]

  /**
   * The 26-entry register layout of `getRegValues`: PC and SP as low byte then
   * high byte, followed by the cells of `Layout`.
   */
  function RegValues(s: Registers): (regs: seq<nat>)
    ensures |regs| == 26
    ensures regs[0] + 0x100 * regs[1] == s.pc && regs[2] + 0x100 * regs[3] == s.sp
    ensures regs[0] < 0x100 && regs[2] < 0x100
  {
    [s.pc % 0x100, s.pc / 0x100, s.sp % 0x100, s.sp / 0x100,
     s.r1.f, s.r1.a, s.r1.c, s.r1.b, s.r1.e, s.r1.d, s.r1.l, s.r1.h,
     s.r1.ixl, s.r1.ixh, s.r1.iyl, s.r1.iyh,
     s.r2.f, s.r2.a, s.r2.c, s.r2.b, s.r2.e, s.r2.d, s.r2.l, s.r2.h,
     s.r, s.i]
  }

  /** Entries 4 to 25 of the layout are the cells of `Layout`, in order. */
  lemma RegValuesLayout(s: Registers, k: nat)
    requires 4 <= k < 26
    ensures RegValues(s)[k] == Get(s, Layout[k - 4])
  {
  }

  /**
   * A register write shows in the layout exactly at its own positions: every
   * layout entry whose location the identifier does not target is unchanged.
   */
  lemma SetRegThenRegValues(s: Registers, id: RegId, v: nat, k: nat)
    requires v < Width(id) && 4 <= k < 26 && Layout[k - 4] !in Targets(id)
    ensures RegValues(SetReg(s, id, v))[k] == RegValues(s)[k]
  {
    RegValuesLayout(s, k);
    RegValuesLayout(SetReg(s, id, v), k);
    SetRegFrame(s, id, v, Layout[k - 4]);
  }
}
