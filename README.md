# DeZog core, modelled in Dafny

This project models three pieces of DeZog, the Z80 debugger for VS Code, and proves properties of them.

- **The simulator remote** (`src/remotes/zxsimulator/zxsimremote.ts`). It covers:
  - the register file the remote reads (`getRegValues`) and writes (`setRegValue`);
  - the breakpoint store with its ever-growing IDs;
  - the 64K breakpoint table built at each continue;
  - the burst loop that runs the emulated Z80 for up to 100000 instructions, then stops or reschedules.

  The remote is a class (`ZxSimulator.SimulatorRemote`) whose methods update its fields in place. Its CPU is a second class (`ZxSimulator.Z80Cpu`). Each method is proved against value-level specification functions (`AddBp`, `RemoveBp`, `TableEntry`, `Run`, `Registers.SetReg`), and the properties are proved about those functions.
- **The ZEsarUX CPU-history line format**, as its test suite pins it down (`src/tests/zesaruxCpuHistory.tests.ts`). It covers:
  - extracting the `(PC)=` opcode bytes and the `AF=` flags from a register dump line;
  - classifying the instruction as an executed RET, an executed CALL or an RST;
  - disassembling the instructions the tests name;
  - the tests' own `getHexString` helper and the lines they build with it.
- **The ZX Spectrum Next sprite view** (`src/views/zxnextspritesview.ts`). It covers:
  - decoding a 4- or 5-byte sprite attribute record;
  - the pixel transforms of a 16x16 pattern (4-bit unpacking, 90 degree rotation, X and Y mirroring), each filling a new array in nested loops;
  - the expansion of (start, count) slot ranges;
  - the palette rotation by the palette offset;
  - the list of patterns to fetch;
  - the table cell that is set in bold when a value changed.

Modules:
- `Opt` (option.dfy): the Option type.
- `Text` (text.dfy): decimal rendering.
- `Registers` (registers.dfy).
- `ZxSimulator` (simulator.dfy).
- `CpuHistory` (cpu_history.dfy).
- `ZxNextSprites` (sprites.dfy).

Parameters stand in for what the model cannot see:
- The Z80 instruction engine is a parameter `step: Registers -> Step`. One call is one `execute()`. It yields the next register state, or an error text together with the registers as the engine left them when it threw.
- The slot ranges, attribute bytes, patterns and palettes that the view receives from the remote are plain inputs.

## Model

| member | source | states |
|---|---|---|
| Registers.SetReg | src/remotes/zxsimulator/zxsimremote.ts:132-240 | Writing any register other than PC, SP, R and I leaves those four untouched. The full frame, including the other bank, is `SetRegFrame`; the read-back is `SetRegReadsBack`. |
| Registers.Read | src/remotes/zxsimulator/zxsimremote.ts:132-240 | A register reads below its width: 256 for an 8-bit register, 65536 for PC, SP and the pairs. |
| Registers.Targets | src/remotes/zxsimulator/zxsimremote.ts:132-240 | A pair names two distinct cells, both in its own bank (bank 2 exactly for AF2..HL2), any other identifier one location. |
| Registers.CellOf | src/remotes/zxsimulator/zxsimremote.ts:132-240 | An 8-bit identifier is a cell of bank 2 exactly when it ends in 2, and its location has the identifier's width. |
| Registers.HalvesInBank | src/remotes/zxsimulator/zxsimremote.ts:132-240 | Both halves of a pair lie in the same bank as the pair. |
| Registers.HalvesDistinct | src/remotes/zxsimulator/zxsimremote.ts:132-240 | The high and low halves of a pair are two different cells. |
| Registers.SetRegReadsBack | src/remotes/zxsimulator/zxsimremote.ts:132-240 | After `setRegValue(id, v)` the register `id` reads back exactly `v`, for all 34 identifiers. |
| Registers.PairIsTwoWrites | src/remotes/zxsimulator/zxsimremote.ts:142-185 | Writing a pair equals writing its high half with `v / 256` and then its low half with `v % 256`. |
| Registers.PairHalvesStored | src/remotes/zxsimulator/zxsimremote.ts:142-185 | A pair write puts the high byte in the pair's first cell and the low byte in its second. |
| Registers.PairReadsBack | src/remotes/zxsimulator/zxsimremote.ts:142-185 | A pair write reads back as high * 256 + low = the value written. |
| Registers.SetRegFrame | src/remotes/zxsimulator/zxsimremote.ts:132-240 | `setRegValue(id, v)` changes no location outside the cells `id` names (the other bank, PC, SP, R and I included). |
| Registers.HalvesCompose | src/remotes/zxsimulator/zxsimremote.ts:132-240 | Writing a pair's high half and then its low half makes the pair read high * 256 + low. |
| Registers.RegValues | src/remotes/zxsimulator/zxsimremote.ts:92-124 | The register layout has 26 entries; entries 0/1 and 2/3 are PC and SP as low byte then high byte. |
| Registers.RegValuesLayout | src/remotes/zxsimulator/zxsimremote.ts:92-124 | Entries 4..25 are F,A,C,B,E,D,L,H,IXL,IXH,IYL,IYH of bank 1, F..H of bank 2, then R and I, in that order. |
| Registers.SetRegThenRegValues | src/remotes/zxsimulator/zxsimremote.ts:92-240 | A register write leaves every layout entry it does not target unchanged. |
| ZxSimulator.AddBp | src/remotes/zxsimulator/zxsimremote.ts:322-327 | The new ID is the last ID plus one, never 0, not in use before; the map gains exactly that key with the given address and condition; other entries are kept. |
| ZxSimulator.RemoveBp | src/remotes/zxsimulator/zxsimremote.ts:334-336 | Removal deletes only the given key, keeps the last ID, and leaves the store unchanged for an absent ID. |
| ZxSimulator.IdsNeverReused | src/remotes/zxsimulator/zxsimremote.ts:322-336 | Over any series of adds and removes, the IDs handed out strictly increase and exceed the starting last ID: an ID is never reused, even after removal. |
| ZxSimulator.TableEntry | src/remotes/zxsimulator/zxsimremote.ts:379-382 | A defined entry holds the condition of a stored breakpoint at that address whose ID is at most the last ID. |
| ZxSimulator.TableEntryMeaning | src/remotes/zxsimulator/zxsimremote.ts:376-383 | A table entry is defined exactly when some stored breakpoint has that address, and then holds the condition of the last such one in ID order. |
| ZxSimulator.BoundaryAddr | src/remotes/zxsimulator/zxsimremote.ts:377-378 | A missing boundary address becomes negative, so it can never match the 16-bit PC; a given one is kept. |
| ZxSimulator.Check | src/remotes/zxsimulator/zxsimremote.ts:255-281 | The stop checks fire in the source's order: engine error, table hit at the new PC, cleared running flag, boundary address; otherwise the burst goes on. |
| ZxSimulator.Run | src/remotes/zxsimulator/zxsimremote.ts:249-314 | A burst executes at most n instructions; it reschedules only after all n passed; a stop follows at least one instruction; a silent stop is at a boundary address; a breakpoint stop is at a table hit. |
| ZxSimulator.RunStopsAtFirstHalt | src/remotes/zxsimulator/zxsimremote.ts:255-281 | Every instruction before the last one of a burst passed all checks, and the last one's verdict is the burst's break reason. |
| ZxSimulator.Z80Cpu.Load | src/remotes/zxsimulator/zxsimremote.ts:258 | The CPU takes over the state one `execute()` produced. |
| ZxSimulator.SimulatorRemote.constructor | src/remotes/zxsimulator/zxsimremote.ts:45-54 | A new remote has an empty breakpoint map, last ID 0 and is not running. |
| ZxSimulator.SimulatorRemote.SendDzrpCmdGetRegisters | src/remotes/zxsimulator/zxsimremote.ts:355-358 | Returns the 26-entry layout of the CPU's registers, with PC and SP split low byte first. |
| ZxSimulator.SimulatorRemote.SetRegValue | src/remotes/zxsimulator/zxsimremote.ts:132-240 | The CPU's new registers are `SetReg` of the old ones: the named register reads back the value and nothing else changes. |
| ZxSimulator.SimulatorRemote.SendDzrpCmdSetRegister | src/remotes/zxsimulator/zxsimremote.ts:366-368 | Same effect as `setRegValue`. |
| ZxSimulator.SimulatorRemote.CreateNewBreakpoint | src/remotes/zxsimulator/zxsimremote.ts:322-327 | The store and the returned ID are those of `AddBp`; the store invariant is kept. |
| ZxSimulator.SimulatorRemote.RemoveBreakpoint | src/remotes/zxsimulator/zxsimremote.ts:334-336 | The store becomes `RemoveBp` of the old one; the invariant is kept. |
| ZxSimulator.SimulatorRemote.SendDzrpCmdAddBreakpoint | src/remotes/zxsimulator/zxsimremote.ts:406-409 | Returns the new ID, which is never 0. |
| ZxSimulator.SimulatorRemote.SendDzrpCmdRemoveBreakpoint | src/remotes/zxsimulator/zxsimremote.ts:416-418 | Same effect as `removeBreakpoint`. |
| ZxSimulator.SimulatorRemote.MaterializeBreakpoints | src/remotes/zxsimulator/zxsimremote.ts:379-382 | A fresh 0x10000-entry table holds, at every address, the `TableEntry` of the stored breakpoints. |
| ZxSimulator.SimulatorRemote.Z80CpuContinue | src/remotes/zxsimulator/zxsimremote.ts:249-314 | The burst loop's result and final registers are those of `Run` over 100000 instructions; the running flag survives only a reschedule. |
| ZxSimulator.SimulatorRemote.SendDzrpCmdContinue | src/remotes/zxsimulator/zxsimremote.ts:376-386 | Builds the table, sets the running flag and runs the first burst from a running state with -1 for missing boundary addresses. |
| ZxSimulator.SimulatorRemote.SendDzrpCmdPause | src/remotes/zxsimulator/zxsimremote.ts:392-395 | Pausing clears the running flag. |
| CpuHistory.IndexFrom | src/tests/zesaruxCpuHistory.tests.ts:18-26 | A key is found at the first position where it matches; None means it matches nowhere from the start position on. |
| CpuHistory.GetOpcodes | src/tests/zesaruxCpuHistory.tests.ts:18-26 | The opcode text exists exactly when the line holds `(PC)=` and is at most 8 characters. |
| CpuHistory.PcField | src/tests/zesaruxCpuHistory.tests.ts:18-26 | For any prefix without `(` followed by `(PC)=` and 8 characters, those 8 characters are the opcode text and their parse is the opcode bytes. |
| CpuHistory.GetOpcodesVectors | src/tests/zesaruxCpuHistory.tests.ts:21-25 | The two register dump lines of the test give `e52a785c` and `00123456`. |
| CpuHistory.ParseHexByte | src/tests/zesaruxCpuHistory.tests.ts:168-179 | Two characters parse to a byte exactly when both are hex digits, and the byte is 16 times the first digit's value plus the second's. |
| CpuHistory.ParseHex4 | src/tests/zesaruxCpuHistory.tests.ts:18-26 | Eight characters parse to four bytes exactly when all are hex digits, and byte k is the parse of characters 2k and 2k+1. |
| CpuHistory.HexDigits | src/tests/zesaruxCpuHistory.tests.ts:172 | `toString(16)` has one digit exactly below 16; its last two digits are the low and high nibble; all its characters are hex digits. |
| CpuHistory.GetHexString | src/tests/zesaruxCpuHistory.tests.ts:170-182 | The text always has two characters. `undefined` gives `??`, and from -256 up both characters are hex digits. |
| CpuHistory.HexStringDigits | src/tests/zesaruxCpuHistory.tests.ts:168-179 | From -256 up, `getHexString` is the two lower-case digits of the value raised into 0..: padded with a 0, or cut to the last two. |
| CpuHistory.HexStringRoundTrip | src/tests/zesaruxCpuHistory.tests.ts:168-179 | From -256 up, `getHexString` gives two hex digits that parse back to the value modulo 256. |
| CpuHistory.IsRetAndExecuted | src/tests/zesaruxCpuHistory.tests.ts:188-235 | A known result needs the opcode bytes; an unconditional RET/RETI/RETN is executed; a non-conditional other opcode is not. |
| CpuHistory.IsCallAndExecuted | src/tests/zesaruxCpuHistory.tests.ts:279-313 | A known result needs the opcode bytes; without a condition, only CALL nn counts as an executed call. |
| CpuHistory.IsRst | src/tests/zesaruxCpuHistory.tests.ts:354-391 | The result is known exactly when the opcode bytes are, and is true exactly for opcodes 11xxx111. |
| CpuHistory.ClassifiedWithoutFlags | src/tests/zesaruxCpuHistory.tests.ts:215-235 | On any `(PC)=` line with no flags, RST, unconditional RET and CALL nn are classified from the opcode bytes alone. |
| CpuHistory.UnconditionalVectors | src/tests/zesaruxCpuHistory.tests.ts:215-235 | C9, ED 4D and ED 45 are executed returns whatever the flags; 01 and 0E are not; CD is an executed call. |
| CpuHistory.RstClassifier | src/tests/zesaruxCpuHistory.tests.ts:354-391 | All eight RST opcodes C7..FF classify as RST and C8 does not. |
| CpuHistory.FamilyPairing | src/tests/zesaruxCpuHistory.tests.ts:237-272 | In each condition family (NZ/Z, NC/C, PO/PE, P/M) the even condition holds exactly when its flag is clear, the odd one exactly when it is set. |
| CpuHistory.ComplementFlags | src/tests/zesaruxCpuHistory.tests.ts:188-212 | `~flags` taken modulo 256, as the test lines carry it, is the bitwise complement of the flag mask. |
| CpuHistory.FamilyOpcode | src/tests/zesaruxCpuHistory.tests.ts:237-349 | The family opcodes of the tests (C0/C8 .. F4/FC) have the RET cc or CALL cc shape and the family's condition field. |
| CpuHistory.ConditionalExecuted | src/tests/zesaruxCpuHistory.tests.ts:188-212 | A conditional RET or CALL counts as executed exactly when its condition holds on the flags. |
| CpuHistory.TestLineFields | src/tests/zesaruxCpuHistory.tests.ts:188-212 | A line built by the tests parses back to flags modulo 256 and the bytes [opcode modulo 256, 0, 0, 0]. |
| CpuHistory.RetOnTestLine | src/tests/zesaruxCpuHistory.tests.ts:188-212 | On a test line, a RET cc is executed exactly when its condition holds on the line's flags. |
| CpuHistory.CallOnTestLine | src/tests/zesaruxCpuHistory.tests.ts:279-303 | On a test line, a CALL cc is executed exactly when its condition holds on the line's flags. |
| CpuHistory.RetConditional | src/tests/zesaruxCpuHistory.tests.ts:188-272 | For each family, the four assertions of `testRetConditional` hold: opcode1 runs with the flag clear and not set, opcode2 the other way round. |
| CpuHistory.CallConditional | src/tests/zesaruxCpuHistory.tests.ts:279-349 | The same four assertions for the CALL cc families. |
| CpuHistory.Mnemonic | src/tests/zesaruxCpuHistory.tests.ts:28-162 | Every CB-prefixed instruction decodes. Without a prefix, exactly the opcodes of the C0-FF block that are RET, RET cc, CALL, CALL cc, RST, PUSH or POP decode. |
| CpuHistory.Disassemble | src/tests/zesaruxCpuHistory.tests.ts:28-162 | An instruction is decoded exactly when a mnemonic exists, and its length lies between 1 and 4. |
| CpuHistory.DisassembleLengths | src/tests/zesaruxCpuHistory.tests.ts:28-58 | The test's "1-4 bytes" instructions have these lengths: E5 one byte; ED 61, CB B1 and DD 39 two; DD 56 12 and CD 21 43 three; DD CB 20 06 four. Each comes with its mnemonic. |
| CpuHistory.MnemonicReadsWithinLength | src/tests/zesaruxCpuHistory.tests.ts:28-58 | The length covers every byte the mnemonic is read from: two byte strings that agree on the first `length` bytes have the same length and the same mnemonic. |
| CpuHistory.GetInstruction | src/tests/zesaruxCpuHistory.tests.ts:28-58 | A line has an instruction exactly when its `(PC)=` field holds four hex bytes that decode, and the instruction is their mnemonic. |
| CpuHistory.InstructionOfLine | src/tests/zesaruxCpuHistory.tests.ts:28-58 | The instruction of any `(PC)=` line is the mnemonic of its parsed opcode bytes. |
| CpuHistory.ClassifierMatchesDecoder | src/tests/zesaruxCpuHistory.tests.ts:116-162 | Whatever the classifiers call an executed RET, an executed CALL or an RST, the decoder names RET, CALL or RST. |
| CpuHistory.DecodesPushHl | src/tests/zesaruxCpuHistory.tests.ts:34-35 | E5 decodes as PUSH HL. |
| CpuHistory.DecodesOutCH | src/tests/zesaruxCpuHistory.tests.ts:37-38 | ED 61 decodes as OUT (C),H. |
| CpuHistory.DecodesResC | src/tests/zesaruxCpuHistory.tests.ts:40-41 | CB B1 decodes as RES 6,C. |
| CpuHistory.DecodesAddIx | src/tests/zesaruxCpuHistory.tests.ts:43-44 | DD 39 decodes as ADD IX,SP. |
| CpuHistory.DecodesLdFromIx | src/tests/zesaruxCpuHistory.tests.ts:46-47 | DD 56 12 decodes as LD D,(IX+18). |
| CpuHistory.DecodesRlcIx | src/tests/zesaruxCpuHistory.tests.ts:49-50 | DD CB 20 06 decodes as RLC (IX+32). |
| CpuHistory.DecodesAddIy | src/tests/zesaruxCpuHistory.tests.ts:53-54 | FD 39 decodes as ADD IY,SP. |
| CpuHistory.DecodesRlcIy | src/tests/zesaruxCpuHistory.tests.ts:56-57 | FD CB 20 06 decodes as RLC (IY+32). |
| CpuHistory.WithCond | src/tests/zesaruxCpuHistory.tests.ts:61-162 | Placing condition k into an opcode base adds 8k and makes k the condition field. |
| CpuHistory.DecodesRst | src/tests/zesaruxCpuHistory.tests.ts:61-78 | Each RST opcode decodes as RST with its target 8k as two upper-case hex digits and `h`. |
| CpuHistory.RstTargets | src/tests/zesaruxCpuHistory.tests.ts:61-78 | The targets render as 08, 18, 28 and 38. |
| CpuHistory.DecodesCallCc | src/tests/zesaruxCpuHistory.tests.ts:81-113 | CALL cc decodes as CALL, the condition, and the operand address. |
| CpuHistory.CallAddressVector | src/tests/zesaruxCpuHistory.tests.ts:81-113 | The operand bytes 21 43 render as 4321h. |
| CpuHistory.DecodesCall | src/tests/zesaruxCpuHistory.tests.ts:81-113 | CD 21 43 decodes as CALL 4321h. |
| CpuHistory.DecodesRet | src/tests/zesaruxCpuHistory.tests.ts:116-130 | C9, ED 4D and ED 45 decode as RET, RETI and RETN. |
| CpuHistory.DecodesRetCc | src/tests/zesaruxCpuHistory.tests.ts:133-162 | Each RET cc decodes as RET and its condition. |
| ZxNextSprites.DecodeSprite | src/views/zxnextspritesview.ts:51-67 | X is below 512 with attribute 0 as its low byte and bit 0 of attribute 2 as bit 8; the mirror and rotate flags are 0/1 from bits 3, 2, 1 of attribute 2; the palette offset is a multiple of 16 up to 240; the pattern index is below 64; visible exactly when bit 7 of attribute 3 is set; with 4 bytes N6 is undefined and the sprite not relative; with 5, N6 is defined exactly when bit 7 of attribute 4 is set and then equals bit 6, and the sprite is relative exactly when the top two bits are 01. |
| ZxNextSprites.DecodeEncode | src/views/zxnextspritesview.ts:51-67 | Every decoded field survives encoding and decoding again: for any sprite whose fields lie in their ranges, decoding its 5-byte record gives back the same sprite. The decoder ignores bit 6 of attribute 3 and bits 5..0 of attribute 4, as the source does. |
| ZxNextSprites.Unpacked | src/views/zxnextspritesview.ts:78-88 | A 4-bit pattern unpacks into 256 pixels, each below 16. |
| ZxNextSprites.UnpackedPairs | src/views/zxnextspritesview.ts:78-88 | Pixel 2i is the high nibble and pixel 2i+1 the low nibble of byte i of the selected half (offset 128 * N6); together they pack back into that byte. |
| ZxNextSprites.UnpackPattern | src/views/zxnextspritesview.ts:78-88 | The loop fills a 256-entry array with exactly the unpacked pattern. |
| ZxNextSprites.RotatePattern | src/views/zxnextspritesview.ts:90-100 | The nested loops fill a 256-entry array with exactly the pattern rotated by 90 degrees. |
| ZxNextSprites.MirrorPatternX | src/views/zxnextspritesview.ts:102-112 | The nested loops fill a 256-entry array with exactly the pattern mirrored along X. |
| ZxNextSprites.MirrorPatternY | src/views/zxnextspritesview.ts:114-124 | The nested loops fill a 256-entry array with exactly the pattern mirrored along Y. |
| ZxNextSprites.Rotated | src/views/zxnextspritesview.ts:90-100 | Rotation yields 256 pixels, each taken from the pattern. |
| ZxNextSprites.MirroredX | src/views/zxnextspritesview.ts:102-112 | Mirroring along X yields 256 pixels, each taken from the pattern. |
| ZxNextSprites.MirroredY | src/views/zxnextspritesview.ts:114-124 | Mirroring along Y yields 256 pixels, each taken from the pattern. |
| ZxNextSprites.SpritePixels | src/views/zxnextspritesview.ts:75-124 | A sprite shows 256 pixels, each taken from its pattern (unpacked for a 4-bit sprite), so a 4-bit sprite's pixels stay below 16. An 8-bit sprite that is neither rotated nor mirrored shows its pattern unchanged. |
| ZxNextSprites.CreateImageFromPattern | src/views/zxnextspritesview.ts:75-124 | The pixels handed to the image are the pattern unpacked (4-bit sprites), then rotated, then mirrored along X, then along Y, each step only when the sprite asks for it. |
| ZxNextSprites.RotationSourceCell | src/views/zxnextspritesview.ts:90-100 | Rotation takes pixel (y, x) from (15 - x, y), so pixel (y, x) moves to (x, 15 - y). |
| ZxNextSprites.RotationBijective | src/views/zxnextspritesview.ts:90-100 | The positions rotation reads and writes are inverse maps on 0..255: no pixel is lost or doubled. |
| ZxNextSprites.RotatedFourTimes | src/views/zxnextspritesview.ts:90-100 | Rotating four times gives the pattern back. |
| ZxNextSprites.MirroredXInvolution | src/views/zxnextspritesview.ts:102-112 | Mirroring along X twice gives the pattern back. |
| ZxNextSprites.MirroredYInvolution | src/views/zxnextspritesview.ts:114-124 | Mirroring along Y twice gives the pattern back. |
| ZxNextSprites.BothMirrorsHalfTurn | src/views/zxnextspritesview.ts:102-124 | Mirroring along both axes equals rotating twice (a half turn). |
| ZxNextSprites.ExpandSlotRanges | src/views/zxnextspritesview.ts:178-194 | Consuming the (start, count) pairs yields, pair after pair, the slots start .. start+count-1 cut off after 63. |
| ZxNextSprites.SlotRunShape | src/views/zxnextspritesview.ts:187-192 | A range yields the consecutive slots from start, as many as lie below both start+count and 64. |
| ZxNextSprites.SlotsBounded | src/views/zxnextspritesview.ts:178-194 | No expanded slot exceeds 63. |
| ZxNextSprites.OffsetPalette | src/views/zxnextspritesview.ts:290-300 | The used palette has the palette's length. It is the palette itself for offset 0 and, because slicing clamps, whenever 3 * offset reaches the end. Otherwise it starts at entry 3 * offset. |
| ZxNextSprites.OffsetPalettePermutes | src/views/zxnextspritesview.ts:290-300 | The palette a sprite uses has the same length and the same entries as the palette, and is the palette itself for offset 0. |
| ZxNextSprites.OffsetPaletteRotates | src/views/zxnextspritesview.ts:290-300 | When 3 * offset is within the palette, entry i of the used palette is entry (i + 3 * offset) modulo the length. |
| ZxNextSprites.CollectPatternIds | src/views/zxnextspritesview.ts:268-276 | The loop builds exactly the insertion-ordered set of pattern indices of the visible sprites. |
| ZxNextSprites.PatternIdsExact | src/views/zxnextspritesview.ts:268-276 | The pattern list has no duplicates and holds exactly the pattern indices of the visible sprites. |
| ZxNextSprites.CellText | src/views/zxnextspritesview.ts:388-392 | The shown text is never empty and never starts markup; an undefined value shows as `-`. |
| ZxNextSprites.TableTdWithBold | src/views/zxnextspritesview.ts:388-396 | The cell is bold exactly when the current value differs from the previous one, and with the markup removed it shows the current value, or `-` when undefined. |

## Left out

- `sendDzrpCmdGetconfig` and the memory commands `sendDzrpCmdReadMem`, `sendDzrpCmdWriteMem` and `sendDzrpCmdWriteBank` (zxsimremote.ts:345-347, 427-458). They pass data to memory objects that are not part of this model.
- The Z80 instruction engine, memory, ports, the screen update and `console.log`. One `execute()` is the `step` parameter.
- ZxSimulator.After: the engine is a function of the registers alone. The memory and ports that `execute()` reads and writes are not part of the state. An engine error keeps the registers the engine produced before it threw.
- The `setTimeout` that restarts a burst. A burst that ends with `Reschedule` is where the source schedules the next one.
- The promise resolution that reports the break reason.
- Breakpoint conditions are stored and copied into the table but never evaluated. The source does not evaluate them either.
- ZxSimulator.SimulatorRemote.SendDzrpCmdAddBreakpoint: the source's comment promises IDs 1-65535 or 0 when none is left. The code never caps the ID and never returns 0, and the model follows the code.
- ZxSimulator.SimulatorRemote.SetRegValue: the values are bounded by the register width (`requires`), following the one- or two-byte value the command carries. Out-of-range values are not modelled.
- ZxSimulator.Run: a reschedule implies that exactly n instructions ran. The converse, that n instructions without a stop always reschedule, follows from `RunStopsAtFirstHalt` and is not stated separately.
- The `ZesaruxCpuHistory` class is not part of this model. The line parsing, classifiers and decoder are built from what its test suite asserts. Decoder behaviour beyond those assertions is not specified: other opcodes are undecoded, and negative index displacements give no text.
- CpuHistory: the decode vectors of the tests are stated on opcode bytes. The line level is covered once for all lines by `PcField`, `InstructionOfLine` and `ClassifiedWithoutFlags`.
- The HTML, script and canvas generation of the sprite view, the GIF conversion of the final pixels, and the asynchronous fetches `getAllVisibleSprites`, `getSprites`, `getSpritesClippingWindow` and the patterns fetched by the base class.
- ZxNextSprites.CreateImageFromPattern: the pixels are returned instead of being converted into the sprite's `image` field, because the GIF encoder is left out.
- ZxNextSprites.ExpandSlotRanges: the source asserts a positive count for each pair, and the model requires it. The source also empties the caller's array by shifting it; the model reads a sequence and does not capture that side effect.
- ZxNextSprites.TableTdWithBold: values are integers or undefined. JavaScript's loose equality between other kinds of values (strings, `null`) is not modelled.
- ZxNextSprites.OffsetPaletteRotates: the wrap-around is stated only when `3 * offset` lies within the palette. Beyond it, slicing clamps and the palette is returned unrotated, as `OffsetPalette` defines.
