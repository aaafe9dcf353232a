/**
 * Snapshot-line decoding and control-flow classification of the CPU history
 * (the behaviour asserted in src/tests/zesaruxCpuHistory.tests.ts).
 *
 * A snapshot line holds `AF=xxxx` (F is its low byte) and `(PC)=xxxxxxxx`,
 * the four bytes at the program counter. The decoder disassembles a subset of
 * the Z80 instruction set; the classifier decides whether a RET, CALL or RST
 * at that point transferred control. Condition codes follow the Zilog Z80 CPU
 * User Manual: the cc field is opcode bits 5..3, giving NZ, Z, NC, C, PO, PE,
 * P, M, which test the F bits Z (0x40), C (0x01), P/V (0x04) and S (0x80).
 */
module CpuHistory {
  import opened Opt
  import opened Text

  type byte = bv8

  // ---------------------------------------------------------------------
  // Text helpers
  // ---------------------------------------------------------------------

  /** `key` occurs in `line` at position `j`. */
  predicate MatchAt(line: string, key: string, j: nat) {
    j + |key| <= |line| && line[j..j + |key|] == key
  }

  /** The first index at or after `i` where `key` occurs in `line`. */
  function IndexFrom(line: string, key: string, i: nat): (r: Option<nat>)
    requires i <= |line|
    ensures r.Some? ==> i <= r.value && MatchAt(line, key, r.value)
    ensures r.Some? ==> forall j :: i <= j < r.value ==> !MatchAt(line, key, j)
    ensures r.None? ==> forall j :: i <= j ==> !MatchAt(line, key, j)
    decreases |line| - i
  {
    if i + |key| > |line| then None
    else if line[i..i + |key|] == key then Some(i)
    else IndexFrom(line, key, i + 1)
  }

  /** The first occurrence of `key` in `line`. */
  function IndexOf(line: string, key: string): Option<nat> {
    IndexFrom(line, key, 0)
  }

  /** A key found at `p` with no earlier occurrence of its first character is the first occurrence. */
  lemma {:induction false} IndexFromAt(line: string, key: string, i: nat, p: nat)
    requires i <= p && |key| > 0 && MatchAt(line, key, p)
    requires forall j :: i <= j < p ==> line[j] != key[0]
    ensures IndexFrom(line, key, i) == Some(p)
    decreases p - i
  {
    if i < p {
      assert line[i..i + |key|][0] == line[i];
      IndexFromAt(line, key, i + 1, p);
    }
  }

  function HexValue(c: char): Option<nat> {
    if '0' <= c <= '9' then Some(c as nat - '0' as nat)
    else if 'a' <= c <= 'f' then Some(c as nat - 'a' as nat + 10)
    else if 'A' <= c <= 'F' then Some(c as nat - 'A' as nat + 10)
    else None
  }

  /** Two hex digits as a byte. */
  function ParseHexByte(s: string): (r: Option<byte>)
    requires |s| == 2
    ensures r.Some? <==> HexValue(s[0]).Some? && HexValue(s[1]).Some?
    ensures r.Some? ==> r.value == (HexValue(s[0]).value * 16 + HexValue(s[1]).value) as byte
  {
    match (HexValue(s[0]), HexValue(s[1]))
    case (Some(hi), Some(lo)) => Some((hi * 16 + lo) as byte)
    case _ => None
  }

  function LowerDigit(n: nat): char
    requires n < 16
  {
    "0123456789abcdef"[n]
  }

  function UpperDigit(n: nat): char
    requires n < 16
  {
    "0123456789ABCDEF"[n]
  }

  /** JavaScript's `n.toString(16)` for a non-negative integer: lower-case digits, no leading zeros. */
  function HexDigits(n: nat): (s: string)
    ensures |s| >= 1 && (n < 16 <==> |s| == 1)
    ensures s[|s| - 1] == LowerDigit(n % 16)
    ensures n >= 16 ==> s[|s| - 2] == LowerDigit(n / 16 % 16)
    ensures forall k :: 0 <= k < |s| ==> HexValue(s[k]).Some?
  {
    if n < 16 then [LowerDigit(n)] else HexDigits(n / 16) + [LowerDigit(n % 16)]
  }

  /** `value.toString(16)` for any integer: a minus sign before the digits of a negative one. */
  function ToHex(v: int): string {
    if v < 0 then "-" + HexDigits(-v) else HexDigits(v)
  }

  /** Exactly `width` upper-case hex digits of `n` modulo 16^width. */
  function HexFixed(n: nat, width: nat): (s: string)
    ensures |s| == width
  {
    if width == 0 then "" else HexFixed(n / 16, width - 1) + [UpperDigit(n % 16)]
  }

  function Repeat(c: char, n: nat): (s: string)
    ensures |s| == n && forall k :: 0 <= k < n ==> s[k] == c
  {
    if n == 0 then "" else [c] + Repeat(c, n - 1)
  }

  // ---------------------------------------------------------------------
  // The test suite's `getHexString` helper
  // ---------------------------------------------------------------------

  /**
   * `getHexString`: a negative value is first raised by 0x100; the hex text is
   * cut to its last two characters or padded with zeros to two; `undefined`
   * gives "??".
   */
  function GetHexString(value: Option<int>): (r: string)
    ensures |r| == 2
    ensures value.None? ==> r == "??"
    ensures value.Some? && value.value >= -0x100 ==> HexValue(r[0]).Some? && HexValue(r[1]).Some?
  {
    match value
    case None => "??"
    case Some(v) => TwoDigits(ToHex(if v < 0 then v + 0x100 else v))
  }

  /** Cuts leading characters or pads with `0` to exactly two characters. */
  function TwoDigits(s: string): (t: string)
    ensures |t| == 2
    ensures |s| >= 2 ==> t == s[|s| - 2..]
    ensures |s| < 2 ==> t == Repeat('0', 2 - |s|) + s
  {
    var r := 2 - |s|;
    if r < 0 then s[-r..] else Repeat('0', r) + s
  }

  /** Two digits of a number below 16: a `0` and its one digit. */
  lemma {:induction false} TwoDigitsSmall(w: nat)
    requires w < 16
    ensures TwoDigits(HexDigits(w)) == [LowerDigit(w / 16 % 16), LowerDigit(w % 16)]
  {
    assert Repeat('0', 1) == ['0'];
    assert w / 16 % 16 == 0;
  }

  /** Two digits of a number of two or more hex digits: its last two. */
  lemma {:induction false} TwoDigitsLarge(w: nat)
    requires w >= 16
    ensures TwoDigits(HexDigits(w)) == [LowerDigit(w / 16 % 16), LowerDigit(w % 16)]
  {
    var s := HexDigits(w);
    if |s| == 2 {
      assert Repeat('0', 0) + s == s;
    } else {
      assert s[|s| - 2..] == [s[|s| - 2], s[|s| - 1]];
    }
  }

  /** From -256 up, `getHexString` is the last two hex digits of the value raised into 0..: */
  lemma {:induction false} HexStringDigits(v: int)
    requires v >= -0x100
    ensures var w := if v < 0 then v + 0x100 else v;
            GetHexString(Some(v)) == [LowerDigit(w / 16 % 16), LowerDigit(w % 16)]
  {
    var w := if v < 0 then v + 0x100 else v;
    assert ToHex(w) == HexDigits(w);
    if w < 16 {
      TwoDigitsSmall(w);
    } else {
      TwoDigitsLarge(w);
    }
  }

  /**
   * For every value from -256 up, `getHexString` yields two hex digits that
   * parse back to the value modulo 256.
   */
  lemma HexStringRoundTrip(v: int)
    requires v >= -0x100
    ensures |GetHexString(Some(v))| == 2
    ensures forall k :: 0 <= k < 2 ==> HexValue(GetHexString(Some(v))[k]).Some?
    ensures ParseHexByte(GetHexString(Some(v))) == Some((v % 0x100) as byte)
  {
    var w := if v < 0 then v + 0x100 else v;
    HexStringDigits(v);
    var hi, lo := w / 16 % 16, w % 16;
    ParseDigits(hi, lo);
    SplitByte(w);
    RaisedModulo(v);
  }

  lemma RaisedModulo(v: int)
    requires v >= -0x100
    ensures (if v < 0 then v + 0x100 else v) % 0x100 == v % 0x100
  {
  }

  lemma ParseDigits(hi: nat, lo: nat)
    requires hi < 16 && lo < 16
    ensures ParseHexByte([LowerDigit(hi), LowerDigit(lo)]) == Some((hi * 16 + lo) as byte)
  {
    DigitValue(hi);
    DigitValue(lo);
  }

  /** A non-negative value modulo 256 is its second-last hex digit times 16 plus its last. */
  lemma SplitByte(w: nat)
    ensures w % 0x100 == (w / 16 % 16) * 16 + w % 16
  {
    var q := w / 0x100;
    var m := w % 0x100;
    assert w == q * 0x100 + m;
    assert w / 16 == q * 16 + m / 16;
    assert w % 16 == m % 16;
    assert m == (m / 16) * 16 + m % 16;
  }

  lemma DigitValue(n: nat)
    requires n < 16
    ensures HexValue(LowerDigit(n)) == Some(n)
  {
  }

  /** JavaScript's `~x` for values in the 32-bit range. */
  function BitNot(x: int): int {
    -x - 1
  }

  // ---------------------------------------------------------------------
  // Snapshot line fields
  // ---------------------------------------------------------------------

  const PcKey := "(PC)="
  const AfKey := "AF="

  /**
   * `getOpcodes`: the (up to) 8 characters following the first `(PC)=`;
   * None when the line has no such field.
   */
  function GetOpcodes(line: string): (r: Option<string>)
    ensures r.Some? <==> IndexOf(line, PcKey).Some?
    ensures r.Some? ==> |r.value| <= 8
  {
    match IndexOf(line, PcKey)
    case None => None
    case Some(k) =>
      var start := k + |PcKey|;
      Some(line[start..if start + 8 <= |line| then start + 8 else |line|])
  }

  /** Four bytes written as eight hex digits; None when a digit is not hex. */
  function ParseHex4(hex: string): (r: Option<seq<byte>>)
    requires |hex| == 8
    ensures r.Some? ==> |r.value| == 4
    ensures r.Some? <==> forall k :: 0 <= k < 8 ==> HexValue(hex[k]).Some?
    ensures r.Some? ==> forall k :: 0 <= k < 4 ==> ParseHexByte(hex[2 * k..2 * k + 2]) == Some(r.value[k])
  {
    match (ParseHexByte(hex[0..2]), ParseHexByte(hex[2..4]), ParseHexByte(hex[4..6]), ParseHexByte(hex[6..8]))
    case (Some(b0), Some(b1), Some(b2), Some(b3)) => Some([b0, b1, b2, b3])
    case _ => None
  }

  /** The four bytes at PC; None when the field is missing, shorter than 8 characters or not hex. */
  function OpcodeBytes(line: string): (r: Option<seq<byte>>)
    ensures r.Some? ==> |r.value| == 4
  {
    match GetOpcodes(line)
    case None => None
    case Some(hex) => if |hex| < 8 then None else ParseHex4(hex)
  }

  /** The flag register F: the low byte of the 4-digit `AF=` value. */
  function FlagsOf(line: string): Option<byte> {
    match IndexOf(line, AfKey)
    case None => None
    case Some(k) =>
      if k + |AfKey| + 4 <= |line| then ParseHexByte(line[k + |AfKey| + 2..k + |AfKey| + 4]) else None
  }

  // ---------------------------------------------------------------------
  // Condition codes and the classifier
  // ---------------------------------------------------------------------

  const FlagZ: byte := 0x40
  const FlagC: byte := 0x01
  const FlagPV: byte := 0x04
  const FlagS: byte := 0x80

  /** The condition field cc: opcode bits 5..3. */
  function CondField(op: byte): (cc: nat)
    ensures cc < 8
  {
    ((op >> 3) & 7) as nat
  }

  /** Whether condition cc (NZ, Z, NC, C, PO, PE, P, M) holds for flags f. */
  predicate ConditionHolds(cc: nat, f: byte)
    requires cc < 8
  {
    match cc
    case 0 => f & FlagZ == 0
    case 1 => f & FlagZ != 0
    case 2 => f & FlagC == 0
    case 3 => f & FlagC != 0
    case 4 => f & FlagPV == 0
    case 5 => f & FlagPV != 0
    case 6 => f & FlagS == 0
    case 7 => f & FlagS != 0
  }

  predicate IsRetCc(op: byte) { op & 0xC7 == 0xC0 }
  predicate IsCallCc(op: byte) { op & 0xC7 == 0xC4 }

  /** RET, RETI (ED 4D) and RETN (ED 45): always taken. */
  predicate IsUnconditionalRet(b: seq<byte>)
    requires |b| == 4
  {
    b[0] == 0xC9 || (b[0] == 0xED && (b[1] == 0x4D || b[1] == 0x45))
  }

  /** `isRst`: the opcode has the RST pattern 11xxx111. */
  predicate IsRstAt(b: seq<byte>)
    requires |b| == 4
  {
    b[0] & 0xC7 == 0xC7
  }

  /** `isRetAndExecuted` on the flags and the bytes at PC. */
  predicate RetExecuted(f: byte, b: seq<byte>)
    requires |b| == 4
  {
    IsUnconditionalRet(b) || (IsRetCc(b[0]) && ConditionHolds(CondField(b[0]), f))
  }

  /** `isCallAndExecuted` on the flags and the bytes at PC. */
  predicate CallExecuted(f: byte, b: seq<byte>)
    requires |b| == 4
  {
    b[0] == 0xCD || (IsCallCc(b[0]) && ConditionHolds(CondField(b[0]), f))
  }

  /**
   * `isRetAndExecuted` on a line. The flags are consulted only for RET cc;
   * None when a field the answer needs is missing.
   */
  function IsRetAndExecuted(line: string): (r: Option<bool>)
    ensures r.Some? ==> OpcodeBytes(line).Some?
    ensures r.Some? && IsUnconditionalRet(OpcodeBytes(line).value) ==> r.value
    ensures r.Some? && !IsRetCc(OpcodeBytes(line).value[0]) ==>
              (r.value <==> IsUnconditionalRet(OpcodeBytes(line).value))
  {
    match OpcodeBytes(line)
    case None => None
    case Some(b) =>
      if !IsRetCc(b[0]) then Some(IsUnconditionalRet(b))
      else match FlagsOf(line)
        case None => None
        case Some(f) => Some(RetExecuted(f, b))
  }

  /** `isCallAndExecuted` on a line; flags are consulted only for CALL cc. */
  function IsCallAndExecuted(line: string): (r: Option<bool>)
    ensures r.Some? ==> OpcodeBytes(line).Some?
    ensures r.Some? && !IsCallCc(OpcodeBytes(line).value[0]) ==>
              (r.value <==> OpcodeBytes(line).value[0] == 0xCD)
  {
    match OpcodeBytes(line)
    case None => None
    case Some(b) =>
      if !IsCallCc(b[0]) then Some(b[0] == 0xCD)
      else match FlagsOf(line)
        case None => None
        case Some(f) => Some(CallExecuted(f, b))
  }

  /** `isRst` on a line. */
  function IsRst(line: string): (r: Option<bool>)
    ensures r.Some? <==> OpcodeBytes(line).Some?
    ensures r.Some? ==> (r.value <==> OpcodeBytes(line).value[0] & 0xC7 == 0xC7)
  {
    match OpcodeBytes(line)
    case None => None
    case Some(b) => Some(IsRstAt(b))
  }

  // ---------------------------------------------------------------------
  // Disassembler
  // ---------------------------------------------------------------------

  /** A decoded instruction: its length in bytes and its mnemonic with operands. */
  datatype Instruction = Instruction(length: nat, text: string)

  const Reg8: seq<string> := ["B", "C", "D", "E", "H", "L", "(HL)", "A"]
  const Conditions: seq<string> := ["NZ", "Z", "NC", "C", "PO", "PE", "P", "M"]
  const Shifts: seq<string> := ["RLC", "RRC", "RL", "RR", "SLA", "SRA", "SLL", "SRL"]
  const PushPairs: seq<string> := ["BC", "DE", "HL", "AF"]

  function Bits(op: byte, shift: nat, mask: byte): (k: nat)
    requires shift < 8
    ensures k <= mask as nat
  {
    ((op >> shift) & mask) as nat
  }

  /** The CB-prefixed operation `op` on `operand`: shift/rotate, BIT, RES or SET. */
  function CbText(op: byte, operand: string): string {
    var group := Bits(op, 6, 3);
    var y := Bits(op, 3, 7);
    if group == 0 then Shifts[y] + " " + operand
    else (if group == 1 then "BIT " else if group == 2 then "RES " else "SET ")
         + Decimal(y) + "," + operand
  }

  /** The ED-prefixed instructions of the subset (length 2). */
  function EdText(op: byte): Option<string> {
    if op == 0x4D then Some("RETI")
    else if op == 0x45 then Some("RETN")
    else if op & 0xC7 == 0x41 && op != 0x71 then Some("OUT (C)," + Reg8[Bits(op, 3, 7)])
    else if op & 0xC7 == 0x40 && op != 0x70 then Some("IN " + Reg8[Bits(op, 3, 7)] + ",(C)")
    else None
  }

  /** True for the DD/FD second bytes that take a displacement byte (a 3-byte form). */
  predicate TakesDisplacement(op: byte) {
    (op & 0xC7 == 0x46 && op != 0x76) || (op & 0xF8 == 0x70 && op != 0x76)
  }

  /**
   * The instruction length by the prefix rule: CB and ED prefixes take one
   * more byte; DD/FD then CB is four bytes, DD/FD with a displacement three,
   * other DD/FD forms two; CALL and CALL cc three; everything else one.
   */
  function LengthRule(b: seq<byte>): nat
    requires |b| == 4
  {
    if b[0] == 0xCB || b[0] == 0xED then 2
    else if b[0] == 0xDD || b[0] == 0xFD then
      (if b[1] == 0xCB then 4 else if TakesDisplacement(b[1]) then 3 else 2)
    else if b[0] == 0xCD || IsCallCc(b[0]) then 3
    else 1
  }

  /** The IX/IY operand with a non-negative displacement, in decimal. */
  function Indexed(ix: string, d: byte): string {
    "(" + ix + "+" + Decimal(d as nat) + ")"
  }

  /** DD/FD-prefixed forms with index register `ix`; negative displacements are not decoded. */
  function IndexText(ix: string, b1: byte, b2: byte, b3: byte): Option<string> {
    if b1 == 0xCB then
      if b2 < 0x80 && b3 & 7 == 6 then Some(CbText(b3, Indexed(ix, b2))) else None
    else if b1 & 0xCF == 0x09 then
      Some("ADD " + ix + "," + ["BC", "DE", ix, "SP"][Bits(b1, 4, 3)])
    else if TakesDisplacement(b1) then
      if b2 >= 0x80 then None
      else if b1 & 0xC7 == 0x46 then Some("LD " + Reg8[Bits(b1, 3, 7)] + "," + Indexed(ix, b2))
      else Some("LD " + Indexed(ix, b2) + "," + Reg8[Bits(b1, 0, 7)])
    else if b1 == 0xE5 then Some("PUSH " + ix)
    else if b1 == 0xE1 then Some("POP " + ix)
    else None
  }

  /** The 16-bit little-endian operand of a CALL as "XXXXh". */
  function Address(lo: byte, hi: byte): string {
    HexFixed(hi as nat * 0x100 + lo as nat, 4) + "h"
  }

  /** The mnemonic of the bytes at PC, for the decoded subset; None outside it. */
  function Mnemonic(b: seq<byte>): (r: Option<string>)
    requires |b| == 4
    ensures b[0] == 0xCB ==> r.Some?
    ensures b[0] != 0xCB && b[0] != 0xED && b[0] != 0xDD && b[0] != 0xFD ==>
              (r.Some? <==>
                 (b[0] & 0xC0 == 0xC0 &&
                  (b[0] & 7 == 0 || b[0] & 7 == 4 || b[0] & 7 == 7
                   || b[0] & 0xCF == 0xC1 || b[0] & 0xCF == 0xC5 || b[0] == 0xC9 || b[0] == 0xCD)))
  {
    var op := b[0];
    if op == 0xCB then Some(CbText(b[1], Reg8[Bits(b[1], 0, 7)]))
    else if op == 0xED then EdText(b[1])
    else if op == 0xDD then IndexText("IX", b[1], b[2], b[3])
    else if op == 0xFD then IndexText("IY", b[1], b[2], b[3])
    else if op & 0xCF == 0xC5 then Some("PUSH " + PushPairs[Bits(op, 4, 3)])
    else if op & 0xCF == 0xC1 then Some("POP " + PushPairs[Bits(op, 4, 3)])
    else if op == 0xC9 then Some("RET")
    else if IsRetCc(op) then Some("RET " + Conditions[CondField(op)])
    else if op == 0xCD then Some("CALL " + Address(b[1], b[2]))
    else if IsCallCc(op) then Some("CALL " + Conditions[CondField(op)] + "," + Address(b[1], b[2]))
    else if op & 0xC7 == 0xC7 then Some("RST " + HexFixed((op & 0x38) as nat, 2) + "h")
    else None
  }

  /** Disassembles the four bytes at PC; a decoded instruction has the length the prefix rule gives. */
  function Disassemble(b: seq<byte>): (r: Option<Instruction>)
    requires |b| == 4
    ensures r.Some? <==> Mnemonic(b).Some?
    ensures r.Some? ==> r.value.length == LengthRule(b) && 1 <= r.value.length <= 4
  {
    match Mnemonic(b)
    case None => None
    case Some(text) => Some(Instruction(LengthRule(b), text))
  }

  /** `getInstruction`: the mnemonic of the bytes in the line's `(PC)=` field. */
  function GetInstruction(line: string): (r: Option<string>)
    ensures r.Some? <==> OpcodeBytes(line).Some? && Mnemonic(OpcodeBytes(line).value).Some?
    ensures r.Some? ==> r == Mnemonic(OpcodeBytes(line).value)
  {
    match OpcodeBytes(line)
    case None => None
    case Some(b) => match Disassemble(b)
      case None => None
      case Some(ins) => Some(ins.text)
  }

  // ---------------------------------------------------------------------
  // Properties and the behaviour fixed by the test suite
  // ---------------------------------------------------------------------

  /** `s` holds no '(' (so a `(PC)=` after it is the first one). */
  predicate NoParen(s: string) {
    forall j :: 0 <= j < |s| ==> s[j] != '('
  }

  lemma NoParenConcat(a: string, b: string)
    requires NoParen(a) && NoParen(b)
    ensures NoParen(a + b)
  {
    forall j | 0 <= j < |a + b|
      ensures (a + b)[j] != '('
    {
      if j >= |a| {
        assert (a + b)[j] == b[j - |a|];
      }
    }
  }

  /** A line whose `(PC)=` field follows a prefix without '(' yields the field's 8 characters. */
  lemma PcField(prefix: string, hex: string)
    requires NoParen(prefix)
    requires |hex| == 8
    ensures GetOpcodes(prefix + PcKey + hex) == Some(hex)
    ensures OpcodeBytes(prefix + PcKey + hex) == ParseHex4(hex)
  {
    var line := prefix + PcKey + hex;
    var start := |prefix| + |PcKey|;
    assert line[|prefix|..start] == PcKey;
    assert forall j :: 0 <= j < |prefix| ==> line[j] == prefix[j];
    IndexFromAt(line, PcKey, 0, |prefix|);
    assert line[start..start + 8] == hex;
  }

  /** `getInstruction` on such a line is the mnemonic of the four bytes its field spells. */
  lemma InstructionOfLine(prefix: string, hex: string)
    requires NoParen(prefix)
    requires |hex| == 8
    ensures GetInstruction(prefix + PcKey + hex)
            == (match ParseHex4(hex) case None => None case Some(b) => Mnemonic(b))
  {
    PcField(prefix, hex);
  }

  /** The register dump ahead of `(PC)=` in the test suite's full lines. */
  const DumpA := "PC=0039 SP=ff44 AF=005c "
  const DumpB := "BC=ffff HL=10a8 DE=5cb9 "
  const DumpC := "IX=ffff IY=5c3a AF'=0044 "
  const DumpD := "BC'=174b HL'=107f DE'=0006 "
  const DumpE := "I=3f R=06 IM1 IFF-- "

  lemma DumpNoParen()
    ensures NoParen(DumpA + DumpB + DumpC + DumpD + DumpE)
  {
    assert NoParen(DumpA) && NoParen(DumpB);
    NoParenConcat(DumpA, DumpB);
    assert NoParen(DumpC);
    NoParenConcat(DumpA + DumpB, DumpC);
    assert NoParen(DumpD);
    NoParenConcat(DumpA + DumpB + DumpC, DumpD);
    assert NoParen(DumpE);
    NoParenConcat(DumpA + DumpB + DumpC + DumpD, DumpE);
  }

  /** `getOpcodes` on full register dumps returns the characters after `(PC)=`. */
  lemma GetOpcodesVectors()
    ensures GetOpcodes(DumpA + DumpB + DumpC + DumpD + DumpE + PcKey + "e52a785c") == Some("e52a785c")
    ensures GetOpcodes(DumpA + DumpB + DumpC + DumpD + DumpE + PcKey + "00123456") == Some("00123456")
  {
    DumpNoParen();
    PcField(DumpA + DumpB + DumpC + DumpD + DumpE, "e52a785c");
    PcField(DumpA + DumpB + DumpC + DumpD + DumpE, "00123456");
  }

  lemma DecodesPushHl()
    ensures Mnemonic([0xe5, 0, 0, 0]) == Some("PUSH HL")
  {
    var b: seq<byte> := [0xe5, 0, 0, 0];
    assert b[0] == 0xe5 && b[1] == 0 && b[2] == 0 && b[3] == 0;
    assert Bits(0xe5, 4, 3) == 2;
    assert PushPairs[2] == "HL";
    assert Mnemonic(b) == Some("PUSH " + PushPairs[Bits(0xe5, 4, 3)]);
    assert "PUSH " + "HL" == "PUSH HL";
  }

  lemma DecodesOutCH()
    ensures Mnemonic([0xed, 0x61, 0, 0]) == Some("OUT (C),H")
  {
    var b: seq<byte> := [0xed, 0x61, 0, 0];
    assert b[0] == 0xed && b[1] == 0x61 && b[2] == 0 && b[3] == 0;
    assert Bits(0x61, 3, 7) == 4;
    assert Reg8[4] == "H";
    assert Mnemonic(b) == EdText(0x61);
    assert EdText(0x61) == Some("OUT (C)," + Reg8[Bits(0x61, 3, 7)]);
    assert "OUT (C)," + "H" == "OUT (C),H";
  }

  lemma DecodesResC()
    ensures Mnemonic([0xcb, 0xb1, 0, 0]) == Some("RES 6,C")
  {
    var b: seq<byte> := [0xcb, 0xb1, 0, 0];
    assert b[0] == 0xcb && b[1] == 0xb1 && b[2] == 0 && b[3] == 0;
    assert Bits(0xb1, 6, 3) == 2 && Bits(0xb1, 3, 7) == 6 && Bits(0xb1, 0, 7) == 1;
    assert Reg8[1] == "C";
    assert Mnemonic(b) == Some(CbText(0xb1, Reg8[Bits(0xb1, 0, 7)]));
    assert Decimal(6) == "6";
    assert CbText(0xb1, "C") == "RES " + Decimal(6) + "," + "C";
    assert "RES " + "6" + "," + "C" == "RES 6,C";
  }

  lemma DecodesAddIx()
    ensures Mnemonic([0xdd, 0x39, 0, 0]) == Some("ADD IX,SP")
  {
    var b: seq<byte> := [0xdd, 0x39, 0, 0];
    assert b[0] == 0xdd && b[1] == 0x39 && b[2] == 0 && b[3] == 0;
    assert Bits(0x39, 4, 3) == 3;
    assert Mnemonic(b) == IndexText("IX", 0x39, 0, 0);
    assert IndexText("IX", 0x39, 0, 0) == Some("ADD " + "IX" + "," + ["BC", "DE", "IX", "SP"][Bits(0x39, 4, 3)]);
    assert "ADD " + "IX" + "," + "SP" == "ADD IX,SP";
  }

  lemma DecodesAddIy()
    ensures Mnemonic([0xfd, 0x39, 0, 0]) == Some("ADD IY,SP")
  {
    var b: seq<byte> := [0xfd, 0x39, 0, 0];
    assert b[0] == 0xfd && b[1] == 0x39 && b[2] == 0 && b[3] == 0;
    assert Bits(0x39, 4, 3) == 3;
    assert Mnemonic(b) == IndexText("IY", 0x39, 0, 0);
    assert IndexText("IY", 0x39, 0, 0) == Some("ADD " + "IY" + "," + ["BC", "DE", "IY", "SP"][Bits(0x39, 4, 3)]);
    assert "ADD " + "IY" + "," + "SP" == "ADD IY,SP";
  }

  lemma DecodesLdFromIx()
    ensures Mnemonic([0xdd, 0x56, 0x12, 0]) == Some("LD D,(IX+18)")
  {
    var b: seq<byte> := [0xdd, 0x56, 0x12, 0];
    assert b[0] == 0xdd && b[1] == 0x56 && b[2] == 0x12 && b[3] == 0;
    assert TakesDisplacement(0x56) && 0x56 & 0xC7 == 0x46 as byte && Bits(0x56, 3, 7) == 2;
    assert Reg8[2] == "D";
    assert Mnemonic(b) == IndexText("IX", 0x56, 0x12, 0);
    assert IndexText("IX", 0x56, 0x12, 0) == Some("LD " + Reg8[Bits(0x56, 3, 7)] + "," + Indexed("IX", 0x12));
    assert Decimal(18) == "18";
    assert Indexed("IX", 0x12) == "(" + "IX" + "+" + "18" + ")";
    assert "LD " + "D" + "," + ("(" + "IX" + "+" + "18" + ")") == "LD D,(IX+18)";
  }

  lemma DecodesRlcIx()
    ensures Mnemonic([0xdd, 0xcb, 0x20, 0x06]) == Some("RLC (IX+32)")
  {
    var b: seq<byte> := [0xdd, 0xcb, 0x20, 0x06];
    assert b[0] == 0xdd && b[1] == 0xcb && b[2] == 0x20 && b[3] == 0x06;
    assert Bits(6, 6, 3) == 0 && Bits(6, 3, 7) == 0;
    assert Shifts[0] == "RLC";
    assert Mnemonic(b) == IndexText("IX", 0xcb, 0x20, 0x06);
    assert IndexText("IX", 0xcb, 0x20, 0x06) == Some(CbText(6, Indexed("IX", 0x20)));
    assert Decimal(32) == "32";
    assert Indexed("IX", 0x20) == "(" + "IX" + "+" + "32" + ")";
    assert CbText(6, Indexed("IX", 0x20)) == "RLC" + " " + Indexed("IX", 0x20);
    assert "RLC" + " " + ("(" + "IX" + "+" + "32" + ")") == "RLC (IX+32)";
  }

  lemma DecodesRlcIy()
    ensures Mnemonic([0xfd, 0xcb, 0x20, 0x06]) == Some("RLC (IY+32)")
  {
    var b: seq<byte> := [0xfd, 0xcb, 0x20, 0x06];
    assert b[0] == 0xfd && b[1] == 0xcb && b[2] == 0x20 && b[3] == 0x06;
    assert Bits(6, 6, 3) == 0 && Bits(6, 3, 7) == 0;
    assert Shifts[0] == "RLC";
    assert Mnemonic(b) == IndexText("IY", 0xcb, 0x20, 0x06);
    assert IndexText("IY", 0xcb, 0x20, 0x06) == Some(CbText(6, Indexed("IY", 0x20)));
    assert Decimal(32) == "32";
    assert Indexed("IY", 0x20) == "(" + "IY" + "+" + "32" + ")";
    assert CbText(6, Indexed("IY", 0x20)) == "RLC" + " " + Indexed("IY", 0x20);
    assert "RLC" + " " + ("(" + "IY" + "+" + "32" + ")") == "RLC (IY+32)";
  }

  /**
   * The lengths of the test's "1-4 bytes" instructions: E5 is one byte,
   * ED 61, CB B1 and DD 39 two, DD 56 d and CD nn nn three, DD CB d op four.
   */
  lemma DisassembleLengths()
    ensures Disassemble([0xe5, 0, 0, 0]) == Some(Instruction(1, "PUSH HL"))
    ensures Disassemble([0xed, 0x61, 0, 0]) == Some(Instruction(2, "OUT (C),H"))
    ensures Disassemble([0xcb, 0xb1, 0, 0]) == Some(Instruction(2, "RES 6,C"))
    ensures Disassemble([0xdd, 0x39, 0, 0]) == Some(Instruction(2, "ADD IX,SP"))
    ensures Disassemble([0xdd, 0x56, 0x12, 0]) == Some(Instruction(3, "LD D,(IX+18)"))
    ensures Disassemble([0xdd, 0xcb, 0x20, 0x06]) == Some(Instruction(4, "RLC (IX+32)"))
    ensures Disassemble([0xcd, 0x21, 0x43, 0]) == Some(Instruction(3, "CALL 4321h"))
  {
    DecodesPushHl();
    DecodesOutCH();
    DecodesResC();
    DecodesAddIx();
    DecodesLdFromIx();
    DecodesRlcIx();
    DecodesCall();
  }

  /**
   * The length covers every byte the mnemonic is read from: bytes that agree
   * on the first `LengthRule(b)` positions have the same length and the same
   * mnemonic, whatever follows.
   */
  lemma MnemonicReadsWithinLength(b: seq<byte>, c: seq<byte>)
    requires |b| == 4 && |c| == 4 && b[..LengthRule(b)] == c[..LengthRule(b)]
    ensures LengthRule(c) == LengthRule(b) && Mnemonic(c) == Mnemonic(b)
  {
    var n := LengthRule(b);
    assert b[0] == b[..n][0] == c[..n][0] == c[0];
    if n >= 2 {
      assert b[1] == b[..n][1] == c[..n][1] == c[1];
    }
    if n >= 3 {
      assert b[2] == b[..n][2] == c[..n][2] == c[2];
    }
    if n == 4 {
      assert b == b[..n] == c[..n] == c;
    }
  }

  /** The opcode `base` with condition field k (bits 5..3). */
  function WithCond(base: byte, k: nat): (op: byte)
    requires k < 8 && base & 0x38 == 0
    ensures op as int == base as int + 8 * k
    ensures CondField(op) == k && op & 0xC7 == base & 0xC7
  {
    base | (k as byte << 3)
  }

  /** RET cc (C0 + 8k) decodes to "RET" and the k-th condition name. */
  lemma DecodesRetCc(k: nat, b: seq<byte>)
    requires k < 8 && |b| == 4 && b[0] == WithCond(0xC0, k)
    ensures Mnemonic(b) == Some("RET " + Conditions[k])
  {
  }

  /** CALL cc (C4 + 8k) decodes to "CALL", the k-th condition and the little-endian address. */
  lemma DecodesCallCc(k: nat, b: seq<byte>)
    requires k < 8 && |b| == 4 && b[0] == WithCond(0xC4, k)
    ensures Mnemonic(b) == Some("CALL " + Conditions[k] + "," + Address(b[1], b[2]))
  {
  }

  /** RST (C7 + 8k) decodes to "RST" and its target 8k as two hex digits. */
  lemma DecodesRst(k: nat, b: seq<byte>)
    requires k < 8 && |b| == 4 && b[0] == WithCond(0xC7, k)
    ensures Mnemonic(b) == Some("RST " + HexFixed(8 * k, 2) + "h")
  {
    assert (b[0] & 0x38) as nat == 8 * k;
  }

  /** Two fixed hex digits are the high and the low nibble. */
  lemma {:induction false} HexFixedTwo(n: nat)
    ensures HexFixed(n, 2) == [UpperDigit(n / 16 % 16), UpperDigit(n % 16)]
  {
    assert HexFixed(n / 16 / 16, 0) == "";
  }

  /** The RST targets 08h, 18h, 28h and 38h of the test suite. */
  lemma RstTargets()
    ensures HexFixed(0x08, 2) == "08" && HexFixed(0x18, 2) == "18"
    ensures HexFixed(0x28, 2) == "28" && HexFixed(0x38, 2) == "38"
  {
    HexFixedTwo(0x08);
    HexFixedTwo(0x18);
    HexFixedTwo(0x28);
    HexFixedTwo(0x38);
  }

  /** The CALL operand of the test suite: bytes 21 43 render as "4321h". */
  lemma CallAddressVector()
    ensures Address(0x21, 0x43) == "4321h"
  {
    assert (0x43 as byte) as nat * 0x100 + (0x21 as byte) as nat == 0x4321;
    assert HexFixed(0x4, 1) == "4";
    assert HexFixed(0x43, 2) == "4" + "3";
    assert HexFixed(0x432, 3) == "43" + "2";
    assert HexFixed(0x4321, 4) == "432" + "1";
  }

  /** CALL nn with the test's operand. */
  lemma DecodesCall()
    ensures Mnemonic([0xcd, 0x21, 0x43, 0]) == Some("CALL 4321h")
  {
    var b: seq<byte> := [0xcd, 0x21, 0x43, 0];
    assert b[0] == 0xcd && b[1] == 0x21 && b[2] == 0x43 && b[3] == 0;
    CallAddressVector();
    assert Mnemonic(b) == Some("CALL " + Address(0x21, 0x43));
    assert "CALL " + "4321h" == "CALL 4321h";
  }

  /** RET, RETI and RETN. */
  lemma DecodesRet()
    ensures Mnemonic([0xc9, 0, 0, 0]) == Some("RET")
    ensures Mnemonic([0xed, 0x4d, 0, 0]) == Some("RETI")
    ensures Mnemonic([0xed, 0x45, 0, 0]) == Some("RETN")
  {
    var b: seq<byte> := [0xc9, 0, 0, 0];
    assert b[0] == 0xc9;
    b := [0xed, 0x4d, 0, 0];
    assert b[0] == 0xed && b[1] == 0x4d;
    b := [0xed, 0x45, 0, 0];
    assert b[0] == 0xed && b[1] == 0x45;
  }

  /**
   * RET, RETI and RETN return whatever the flags; opcodes 01 and 0E are not
   * returns; CD always calls and 01 never does.
   */
  lemma UnconditionalVectors(f: byte)
    ensures RetExecuted(f, [0xc9, 0, 0, 0]) && RetExecuted(f, [0xed, 0x4d, 0, 0]) && RetExecuted(f, [0xed, 0x45, 0, 0])
    ensures !RetExecuted(f, [0x01, 0, 0, 0]) && !RetExecuted(f, [0x0e, 0xd1, 0x10, 0])
    ensures CallExecuted(f, [0xcd, 0, 0, 0]) && !CallExecuted(f, [0x01, 0, 0, 0])
  {
    var b: seq<byte> := [0xc9, 0, 0, 0];
    assert b[0] == 0xc9;
    b := [0xed, 0x4d, 0, 0];
    assert b[0] == 0xed && b[1] == 0x4d;
    b := [0xed, 0x45, 0, 0];
    assert b[0] == 0xed && b[1] == 0x45;
    b := [0x01, 0, 0, 0];
    assert b[0] == 0x01;
    b := [0x0e, 0xd1, 0x10, 0];
    assert b[0] == 0x0e;
    b := [0xcd, 0, 0, 0];
    assert b[0] == 0xcd;
  }

  /** The eight RST opcodes C7 + 8k are restarts; C8 (RET Z) is not. */
  lemma RstClassifier(k: nat, b: seq<byte>)
    requires k < 8 && |b| == 4 && b[0] == WithCond(0xC7, k)
    ensures IsRstAt(b) && !IsRstAt([0xc8, 0, 0, 0])
  {
    var c: seq<byte> := [0xc8, 0, 0, 0];
    assert c[0] == 0xc8;
  }

  /** A line without flags is classified from its bytes whenever the opcode is not conditional. */
  lemma ClassifiedWithoutFlags(prefix: string, hex: string, b: seq<byte>)
    requires NoParen(prefix)
    requires |hex| == 8 && ParseHex4(hex) == Some(b)
    ensures !IsRetCc(b[0]) ==> IsRetAndExecuted(prefix + PcKey + hex) == Some(IsUnconditionalRet(b))
    ensures !IsCallCc(b[0]) ==> IsCallAndExecuted(prefix + PcKey + hex) == Some(b[0] == 0xCD)
    ensures IsRst(prefix + PcKey + hex) == Some(IsRstAt(b))
  {
    PcField(prefix, hex);
  }

  /**
   * The classifier and the decoder agree: whatever is classified as an
   * executed return decodes to a RET form, an executed call to a CALL form
   * and a restart to RST.
   */
  lemma ClassifierMatchesDecoder(f: byte, b: seq<byte>)
    requires |b| == 4
    ensures RetExecuted(f, b) ==> Mnemonic(b).Some? && Mnemonic(b).value[..3] == "RET"
    ensures CallExecuted(f, b) ==> Mnemonic(b).Some? && Mnemonic(b).value[..4] == "CALL"
    ensures IsRstAt(b) ==> Mnemonic(b).Some? && Mnemonic(b).value[..3] == "RST"
  {
    var op := b[0];
    if op == 0xED && (b[1] == 0x4D || b[1] == 0x45) {
      assert EdText(b[1]).value[..3] == "RET";
    }
  }

  /** The line the conditional tests build: F from `flags`, then the opcode and three zero bytes. */
  function TestLine(flags: int, opcode: int): string {
    "AF=00" + GetHexString(Some(flags)) + " " + PcKey + (GetHexString(Some(opcode)) + "000000")
  }

  /** The flags of a line shaped like a test line, for any two 2-character texts. */
  lemma TestLineFlags(hf: string, rest: string)
    requires |hf| == 2
    ensures FlagsOf("AF=00" + hf + rest) == ParseHexByte(hf)
  {
    var line := "AF=00" + hf + rest;
    assert line[0..3] == AfKey;
    IndexFromAt(line, AfKey, 0, 0);
    assert line[5..7] == hf;
  }

  /** The opcode field of a line shaped like a test line. */
  lemma TestLineOpcodes(hf: string, ho: string)
    requires |hf| == 2 && |ho| == 2 && hf[0] != '(' && hf[1] != '('
    ensures GetOpcodes("AF=00" + hf + " " + PcKey + (ho + "000000")) == Some(ho + "000000")
  {
    assert NoParen("AF=00") && NoParen(hf) && NoParen(" ");
    NoParenConcat("AF=00", hf);
    NoParenConcat("AF=00" + hf, " ");
    PcField("AF=00" + hf + " ", ho + "000000");
  }

  /** Eight hex digits of which the last six are zeros. */
  lemma ZeroPadded(ho: string)
    requires |ho| == 2
    ensures ParseHex4(ho + "000000") == (match ParseHexByte(ho)
                                          case Some(b) => Some([b, 0, 0, 0])
                                          case None => None)
  {
    var hex := ho + "000000";
    assert hex[0..2] == ho;
    assert hex[2..4] == "00" && hex[4..6] == "00" && hex[6..8] == "00";
    assert ParseHexByte("00") == Some(0);
  }

  /** A test line parses back to F == flags mod 256 and the bytes [opcode mod 256, 0, 0, 0]. */
  lemma TestLineFields(flags: int, opcode: int)
    requires flags >= -0x100 && opcode >= -0x100
    ensures FlagsOf(TestLine(flags, opcode)) == Some((flags % 0x100) as byte)
    ensures OpcodeBytes(TestLine(flags, opcode)) == Some([(opcode % 0x100) as byte, 0, 0, 0])
  {
    TestLineFlagsField(flags, opcode);
    TestLineOpcodesField(flags, opcode);
  }

  lemma TestLineFlagsField(flags: int, opcode: int)
    requires flags >= -0x100 && opcode >= -0x100
    ensures FlagsOf(TestLine(flags, opcode)) == Some((flags % 0x100) as byte)
  {
    var hf := GetHexString(Some(flags));
    var tail := GetHexString(Some(opcode)) + "000000";
    var rest := " " + PcKey + tail;
    assert ParseHexByte(hf) == Some((flags % 0x100) as byte) by { HexStringRoundTrip(flags); }
    assert FlagsOf("AF=00" + hf + rest) == ParseHexByte(hf) by { TestLineFlags(hf, rest); }
    assert TestLine(flags, opcode) == "AF=00" + hf + rest by { Regroup("AF=00" + hf, " ", PcKey, tail); }
  }

  /** Regrouping a four-part concatenation. */
  lemma Regroup(a: string, b: string, c: string, d: string)
    ensures a + b + c + d == a + (b + c + d)
  {
  }

  lemma TestLineOpcodesField(flags: int, opcode: int)
    requires flags >= -0x100 && opcode >= -0x100
    ensures OpcodeBytes(TestLine(flags, opcode)) == Some([(opcode % 0x100) as byte, 0, 0, 0])
  {
    var hf := GetHexString(Some(flags));
    var ho := GetHexString(Some(opcode));
    HexStringRoundTrip(flags);
    HexStringRoundTrip(opcode);
    assert HexValue('(') == None;
    TestLineOpcodes(hf, ho);
    ZeroPadded(ho);
  }

  /** The condition codes tested by family k: NZ/Z, NC/C, PO/PE, P/M. */
  const FamilyMasks: seq<byte> := [FlagZ, FlagC, FlagPV, FlagS]

  /**
   * The pairing law of a conditional family: the even condition holds exactly
   * when its flag is clear, its odd partner exactly when it is set, so flipping
   * the flag swaps the outcome of the two.
   */
  lemma FamilyPairing(k: nat, f: byte)
    requires k < 4
    ensures ConditionHolds(2 * k, f) <==> f & FamilyMasks[k] == 0
    ensures ConditionHolds(2 * k + 1, f) <==> !ConditionHolds(2 * k, f)
    ensures ConditionHolds(2 * k, f ^ FamilyMasks[k]) <==> !ConditionHolds(2 * k, f)
  {
  }

  /** The flags byte of a test line built from `~mask`: every bit but the family's flag set. */
  lemma ComplementFlags(k: nat)
    requires k < 4
    ensures (BitNot(FamilyMasks[k] as int) % 0x100) as byte == !FamilyMasks[k]
  {
    if k == 0 {} else if k == 1 {} else if k == 2 {} else {}
  }

  /** The opcode of family k with base `base` (RET cc C0, CALL cc C4); `odd` selects the set-flag partner. */
  function FamilyOpcode(k: nat, base: byte, odd: bool): (op: byte)
    requires k < 4 && (base == 0xC0 || base == 0xC4)
    ensures op as int == base as int + 0x10 * k + (if odd then 8 else 0)
    ensures op & 0xC7 == base && CondField(op) == 2 * k + (if odd then 1 else 0)
  {
    if k == 0 then (if odd then base + 0x08 else base)
    else if k == 1 then (if odd then base + 0x18 else base + 0x10)
    else if k == 2 then (if odd then base + 0x28 else base + 0x20)
    else (if odd then base + 0x38 else base + 0x30)
  }

  /** `isRetAndExecuted` on a line whose bytes and flags are both present. */
  lemma RetFromFields(line: string, f: byte, b: seq<byte>)
    requires OpcodeBytes(line) == Some(b) && FlagsOf(line) == Some(f)
    ensures IsRetAndExecuted(line) == Some(RetExecuted(f, b))
  {
  }

  /** `isCallAndExecuted` on a line whose bytes and flags are both present. */
  lemma CallFromFields(line: string, f: byte, b: seq<byte>)
    requires OpcodeBytes(line) == Some(b) && FlagsOf(line) == Some(f)
    ensures IsCallAndExecuted(line) == Some(CallExecuted(f, b))
  {
  }

  /** A RET cc or CALL cc is executed exactly when its condition holds. */
  lemma ConditionalExecuted(f: byte, b: seq<byte>)
    requires |b| == 4
    ensures IsRetCc(b[0]) ==> (RetExecuted(f, b) <==> ConditionHolds(CondField(b[0]), f))
    ensures IsCallCc(b[0]) ==> (CallExecuted(f, b) <==> ConditionHolds(CondField(b[0]), f))
  {
  }


  /** On a test line with a RET cc opcode, `isRetAndExecuted` is the condition on F. */
  lemma RetOnTestLine(flags: int, opcode: int)
    requires flags >= -0x100 && 0 <= opcode < 0x100 && IsRetCc(opcode as byte)
    ensures IsRetAndExecuted(TestLine(flags, opcode))
            == Some(ConditionHolds(CondField(opcode as byte), (flags % 0x100) as byte))
  {
    TestLineFields(flags, opcode);
    var line := TestLine(flags, opcode);
    var b: seq<byte> := [opcode as byte, 0, 0, 0];
    var f := (flags % 0x100) as byte;
    assert OpcodeBytes(line) == Some(b) && FlagsOf(line) == Some(f);
    RetFromFields(line, f, b);
    ConditionalExecuted(f, b);
  }

  /** On a test line with a CALL cc opcode, `isCallAndExecuted` is the condition on F. */
  lemma CallOnTestLine(flags: int, opcode: int)
    requires flags >= -0x100 && 0 <= opcode < 0x100 && IsCallCc(opcode as byte)
    ensures IsCallAndExecuted(TestLine(flags, opcode))
            == Some(ConditionHolds(CondField(opcode as byte), (flags % 0x100) as byte))
  {
    TestLineFields(flags, opcode);
    var line := TestLine(flags, opcode);
    var b: seq<byte> := [opcode as byte, 0, 0, 0];
    var f := (flags % 0x100) as byte;
    assert OpcodeBytes(line) == Some(b) && FlagsOf(line) == Some(f);
    CallFromFields(line, f, b);
    ConditionalExecuted(f, b);
  }

  /**
   * `testRetConditional` on the decoded fields: RET with the even condition of
   * family k returns with F = ~mask (the flag clear) and not with F = mask;
   * its odd partner, eight opcodes on, the other way round. The test line
   * carries these fields by `TestLineFields` and `ComplementFlags`.
   */
  lemma RetConditional(k: nat)
    requires k < 4
    ensures var m, op1, op2 := FamilyMasks[k], FamilyOpcode(k, 0xC0, false), FamilyOpcode(k, 0xC0, true);
            RetExecuted(!m, [op1, 0, 0, 0]) && !RetExecuted(m, [op1, 0, 0, 0]) &&
            !RetExecuted(!m, [op2, 0, 0, 0]) && RetExecuted(m, [op2, 0, 0, 0])
  {
    var m := FamilyMasks[k];
    FamilyPairing(k, m);
    FamilyPairing(k, !m);
    ConditionalExecuted(m, [FamilyOpcode(k, 0xC0, false), 0, 0, 0]);
    ConditionalExecuted(!m, [FamilyOpcode(k, 0xC0, false), 0, 0, 0]);
    ConditionalExecuted(m, [FamilyOpcode(k, 0xC0, true), 0, 0, 0]);
    ConditionalExecuted(!m, [FamilyOpcode(k, 0xC0, true), 0, 0, 0]);
  }

  /** `testCallConditional` on the decoded fields: the same law for CALL cc (base C4). */
  lemma CallConditional(k: nat)
    requires k < 4
    ensures var m, op1, op2 := FamilyMasks[k], FamilyOpcode(k, 0xC4, false), FamilyOpcode(k, 0xC4, true);
            CallExecuted(!m, [op1, 0, 0, 0]) && !CallExecuted(m, [op1, 0, 0, 0]) &&
            !CallExecuted(!m, [op2, 0, 0, 0]) && CallExecuted(m, [op2, 0, 0, 0])
  {
    var m := FamilyMasks[k];
    FamilyPairing(k, m);
    FamilyPairing(k, !m);
    ConditionalExecuted(m, [FamilyOpcode(k, 0xC4, false), 0, 0, 0]);
    ConditionalExecuted(!m, [FamilyOpcode(k, 0xC4, false), 0, 0, 0]);
    ConditionalExecuted(m, [FamilyOpcode(k, 0xC4, true), 0, 0, 0]);
    ConditionalExecuted(!m, [FamilyOpcode(k, 0xC4, true), 0, 0, 0]);
  }
}
