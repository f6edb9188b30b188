/** The decoder's own seed table, and why its candidate lists never overflow. */
module SeedTable {
  import opened DecoderSpec
  import opened Options

  const SEED_ROWS := 102

  // ---- the rows, ten to a function, with the source's names ----

  function Rows0(i: nat): Row {
    if i == 0 then Row(0x0FFF, 0x0019, 0x0FE000F0, 0x00000090, true) // MUL/MULS
    else if i == 1 then Row(0x0FFF, 0x0019, 0x0FF000F0, 0x00200090, true) // MLA/MLAS
    else if i == 2 then Row(0x0FFF, 0x07D1, 0x0FE3C1FF, 0x07C3001F, true) // BFC
    else if i == 3 then Row(0x0FFF, 0x07C1, 0x0FE3C1FF, 0x07C3001F, true) // BFC
    else if i == 4 then Row(0x0FFF, 0x07C1, 0x0FE00070, 0x07C00010, true) // BFI
    else if i == 5 then Row(0x0FFF, 0x07D1, 0x0FE00070, 0x07C00010, true) // BFI
    else if i == 6 then Row(0x0FFF, 0x0161, 0x0FFF0FF0, 0x016F0F10, true) // CLZ
    else if i == 7 then Row(0x0FFF, 0x06F3, 0x0FFF0FF0, 0x06FF0F30, true) // RBIT
    else if i == 8 then Row(0x0FF3, 0x06E1, 0x0FE00030, 0x06E00010, true) // USAT
    else Row(0x0FFF, 0x0574, 0x0FFF0FF0, 0x057F0040, false) // DSB
  }

  function Rows10(i: nat): Row {
    if i == 10 then Row(0x0FFF, 0x0575, 0x0FFF0FF0, 0x057F0050, false) // DMB
    else if i == 11 then Row(0x0FFF, 0x0576, 0x0FFF0FF0, 0x057F0060, false) // ISB
    else if i == 12 then Row(0x0F50, 0x0510, 0x033F0000, 0x011F0000, true) // LDR(literal)
    else if i == 13 then Row(0x0FFF, 0x0127, 0x0FF000F0, 0x01200070, false) // BKPT
    else if i == 14 then Row(0x0F00, 0x0100, 0xFF00F000, 0xF1000000, true) // CPS
    else if i == 15 then Row(0x0FFF, 0x0120, 0x0120F000, 0x0120F000, true) // MSR reg->CPSR
    else if i == 16 then Row(0x0FFF, 0x0320, 0x0320F000, 0x0320F000, true) // MSR imm->CPSR
    else if i == 17 then Row(0x0E00, 0x0A00, 0xFE000000, 0xFA000000, false) // BLX (imm)
    else if i == 18 then Row(0x0F10, 0x0800, 0x0FFF0000, 0x092D0000, true) // PUSH (STMDB sp!)
    else Row(0x0F10, 0x0810, 0x0FFF0000, 0x08BD0000, true) // POP (LDMIA sp!)
  }

  function Rows20(i: nat): Row {
    if i == 20 then Row(0x0E10, 0x0810, 0x00000000, 0x00000000, true) // LDM
    else if i == 21 then Row(0x0E10, 0x0800, 0x00000000, 0x00000000, true) // STM
    else if i == 22 then Row(0x0E0F, 0x000B, 0x00500000, 0x00400000, true) // STRH(imm)
    else if i == 23 then Row(0x0E0F, 0x000B, 0x00500000, 0x00000000, true) // STRH(reg)
    else if i == 24 then Row(0x0E0F, 0x000B, 0x00500000, 0x00500000, true) // LDRH(imm)
    else if i == 25 then Row(0x0E0F, 0x000B, 0x00500000, 0x00100000, true) // LDRH(reg)
    else if i == 26 then Row(0x0E0F, 0x000D, 0x00100000, 0x00100000, true) // LDRSB
    else if i == 27 then Row(0x0E0F, 0x000F, 0x00100000, 0x00100000, true) // LDRSH
    else if i == 28 then Row(0x0FFF, 0x0121, 0x0FFFFFF0, 0x012FFF10, true) // BX (reg)
    else Row(0x0FFF, 0x0123, 0x0FFFFFF0, 0x012FFF30, true) // BLX (reg)
  }

  function Rows30(i: nat): Row {
    if i == 30 then Row(0x0DE0, 0x01A0, 0x00000000, 0x00000000, true) // MOV
    else if i == 31 then Row(0x0F00, 0x0300, 0x0FF00000, 0x03000000, true) // MOVW
    else if i == 32 then Row(0x0F00, 0x0300, 0x0FF00000, 0x03400000, true) // MOVT
    else if i == 33 then Row(0x0FE0, 0x01A0, 0x0FE000F0, 0x01A00010, true) // LSL (reg)
    else if i == 34 then Row(0x0FE0, 0x01A0, 0x0FE000F0, 0x01A00030, true) // LSR (reg)
    else if i == 35 then Row(0x0FE0, 0x01A0, 0x0FE000F0, 0x01A00050, true) // ASR (reg)
    else if i == 36 then Row(0x0FE0, 0x01A0, 0x0FE000F0, 0x01A00070, true) // ROR (reg)
    else if i == 37 then Row(0x0E50, 0x0600, 0x00000000, 0x00000000, true) // STR reg-offset
    else if i == 38 then Row(0x0F7F, 0x0740, 0x00000000, 0x00000000, true) // STRB reg LSL#0
    else Row(0x0F71, 0x0740, 0x00000000, 0x00000000, true) // STRB reg imm-shift
  }

  function Rows40(i: nat): Row {
    if i == 40 then Row(0x0E0F, 0x0009, 0x0FB00FF0, 0x01000090, true) // SWP
    else if i == 41 then Row(0x0E0F, 0x0009, 0x0FB00FF0, 0x01400090, true) // SWPB
    else if i == 42 then Row(0x0FBF, 0x0100, 0x0FBF0FFF, 0x014F0000, true) // MRS (SPSR)
    else if i == 43 then Row(0x0FFF, 0x0120, 0x0FBF0FFF, 0x0160F000, true) // MSR reg->SPSR
    else if i == 44 then Row(0x0FFF, 0x0320, 0x0FBF0F00, 0x0360F000, true) // MSR imm->SPSR
    else if i == 45 then Row(0x0E0F, 0x000D, 0x00400000, 0x00400000, true) // LDRD(imm)
    else if i == 46 then Row(0x0E0F, 0x000D, 0x00400000, 0x00000000, true) // LDRD(reg)
    else if i == 47 then Row(0x0E0F, 0x000F, 0x00400000, 0x00400000, true) // STRD(imm)
    else if i == 48 then Row(0x0E0F, 0x000F, 0x00400000, 0x00000000, true) // STRD(reg)
    else Row(0x0DE0, 0x0000, 0x00000000, 0x00000000, true) // AND
  }

  function Rows50(i: nat): Row {
    if i == 50 then Row(0x0DE0, 0x0020, 0x00000000, 0x00000000, true) // EOR
    else if i == 51 then Row(0x0DE0, 0x0100, 0x00000000, 0x00000000, true) // TST
    else if i == 52 then Row(0x0DE0, 0x0120, 0x00000000, 0x00000000, true) // TEQ
    else if i == 53 then Row(0x0DE0, 0x0140, 0x00000000, 0x00000000, true) // CMP
    else if i == 54 then Row(0x0DE0, 0x0160, 0x00000000, 0x00000000, true) // CMN
    else if i == 55 then Row(0x0DE0, 0x0040, 0x00000000, 0x00000000, true) // SUB
    else if i == 56 then Row(0x0DE0, 0x0060, 0x00000000, 0x00000000, true) // RSB
    else if i == 57 then Row(0x0DE0, 0x0080, 0x00000000, 0x00000000, true) // ADD
    else if i == 58 then Row(0x0DE0, 0x00A0, 0x00000000, 0x00000000, true) // ADC
    else Row(0x0DE0, 0x00C0, 0x00000000, 0x00000000, true) // SBC
  }

  function Rows60(i: nat): Row {
    if i == 60 then Row(0x0DE0, 0x00E0, 0x00000000, 0x00000000, true) // RSC
    else if i == 61 then Row(0x0DE0, 0x0180, 0x00000000, 0x00000000, true) // ORR
    else if i == 62 then Row(0x0DE0, 0x01C0, 0x00000000, 0x00000000, true) // BIC
    else if i == 63 then Row(0x0DE0, 0x01E0, 0x00000000, 0x00000000, true) // MVN
    else if i == 64 then Row(0x0FE0, 0x0200, 0x00000000, 0x00000000, true) // AND (imm)
    else if i == 65 then Row(0x0FE0, 0x0310, 0x00000000, 0x00000000, true) // TST (imm)
    else if i == 66 then Row(0x0FE0, 0x0330, 0x00000000, 0x00000000, true) // TEQ (imm)
    else if i == 67 then Row(0x0FE0, 0x0350, 0x00000000, 0x00000000, true) // CMP (imm)
    else if i == 68 then Row(0x0FE0, 0x0370, 0x00000000, 0x00000000, true) // CMN (imm)
    else Row(0x0FE0, 0x0380, 0x00000000, 0x00000000, true) // ORR (imm)
  }

  function Rows70(i: nat): Row {
    if i == 70 then Row(0x0FE0, 0x03A0, 0x00000000, 0x00000000, true) // MOV (imm)
    else if i == 71 then Row(0x0FE0, 0x03C0, 0x00000000, 0x00000000, true) // BIC (imm)
    else if i == 72 then Row(0x0FE0, 0x03E0, 0x00000000, 0x00000000, true) // MVN (imm)
    else if i == 73 then Row(0x0F50, 0x0510, 0x00000000, 0x00000000, true) // LDR  pre-imm
    else if i == 74 then Row(0x0F50, 0x0500, 0x00000000, 0x00000000, true) // STR  pre-imm
    else if i == 75 then Row(0x0F50, 0x0540, 0x00000000, 0x00000000, true) // STRB pre-imm
    else if i == 76 then Row(0x0F50, 0x0550, 0x00000000, 0x00000000, true) // LDRB pre-imm
    else if i == 77 then Row(0x0F50, 0x0440, 0x00000000, 0x00000000, true) // STRB(post,imm)
    else if i == 78 then Row(0x0F50, 0x0410, 0x00000000, 0x00000000, true) // LDR (post,imm)
    else Row(0x0F70, 0x0400, 0x00000000, 0x00000000, true) // STR (post,imm)
  }

  function Rows80(i: nat): Row {
    if i == 80 then Row(0x0F70, 0x0450, 0x00000000, 0x00000000, true) // LDRB post-imm
    else if i == 81 then Row(0x0F70, 0x0470, 0x00000000, 0x00000000, true) // LDRB post-imm W
    else if i == 82 then Row(0x0E50, 0x0610, 0x00000000, 0x00000000, true) // LDR reg-offset
    else if i == 83 then Row(0x0E0F, 0x0009, 0x0FE000F0, 0x00800090, true) // UMULL
    else if i == 84 then Row(0x0E0F, 0x0009, 0x0FE000F0, 0x00A00090, true) // UMLAL
    else if i == 85 then Row(0x0E0F, 0x0009, 0x0FE000F0, 0x00C00090, true) // SMULL
    else if i == 86 then Row(0x0E0F, 0x0009, 0x0FE000F0, 0x00E00090, true) // SMLAL
    else if i == 87 then Row(0x0F7F, 0x0750, 0x00000000, 0x00000000, true) // LDRB reg pre LSL#0
    else if i == 88 then Row(0x0F71, 0x0750, 0x00000000, 0x00000000, true) // LDRB reg imm-shift
    else Row(0x0FF0, 0x0520, 0x000F0000, 0x000D0000, true) // STR(pre-dec SP,imm)
  }

  function Rows90(i: nat): Row {
    if i == 90 then Row(0x0FFF, 0x0490, 0x0FFFF000, 0x049DF000, true) // POP{..,pc}
    else if i == 91 then Row(0x0F00, 0x0A00, 0x00000000, 0x00000000, true) // B
    else if i == 92 then Row(0x0F00, 0x0B00, 0x00000000, 0x00000000, true) // BL
    else if i == 93 then Row(0x0FF0, 0x0C40, 0x0FF00000, 0x0C400000, true) // MCRR
    else if i == 94 then Row(0x0FF0, 0x0C50, 0x0FF00000, 0x0C500000, true) // MRRC
    else if i == 95 then Row(0x0FF0, 0x0C40, 0xFFF00000, 0xFC400000, false) // MCRR2
    else if i == 96 then Row(0x0FF0, 0x0C50, 0xFFF00000, 0xFC500000, false) // MRRC2
    else if i == 97 then Row(0x0F00, 0x0F00, 0x0F000000, 0x0F000000, true) // SVC
    else if i == 98 then Row(0x0FBF, 0x0100, 0x0FBF0FFF, 0x010F0000, true) // MRS
    else Row(0x0FFF, 0x0320, 0xFFFFFFFF, 0xE320F000, false) // NOP
  }

  function Rows100(i: nat): Row {
    if i == 100 then Row(0x0FFF, 0x0320, 0xFFFFFFFF, 0xE320F003, false) // WFI
    else Row(0x0FFF, 0x0EAE, 0xFFFFFFFF, 0xDEADBEEF, false) // DEADBEEF
  }

  function SeedRow(i: nat): Row {
    if i < 10 then Rows0(i)
    else if i < 20 then Rows10(i)
    else if i < 30 then Rows20(i)
    else if i < 40 then Rows30(i)
    else if i < 50 then Rows40(i)
    else if i < 60 then Rows50(i)
    else if i < 70 then Rows60(i)
    else if i < 80 then Rows70(i)
    else if i < 90 then Rows80(i)
    else if i < 100 then Rows90(i)
    else Rows100(i)
  }

  function Seed(): (t: seq<Row>)
    ensures |t| == SEED_ROWS
    ensures forall i :: 0 <= i < SEED_ROWS ==> t[i] == SeedRow(i)
  {
    seq(SEED_ROWS, i requires 0 <= i < SEED_ROWS => SeedRow(i))
  }

  // ---- sixteen columns, each of rows that exclude one another (rows 65 to 68 never match) ----

  function Column0(k: bv16): nat {
    if KeyTest(k, 0x0FF3, 0x06E1) then 8
    else if KeyTest(k, 0x0FFF, 0x0123) then 29
    else if KeyTest(k, 0x0F00, 0x0300) then 31
    else if KeyTest(k, 0x0FBF, 0x0100) then 42
    else if KeyTest(k, 0x0F50, 0x0510) then 73
    else if KeyTest(k, 0x0E0F, 0x0009) then 86
    else if KeyTest(k, 0x0FF0, 0x0C50) then 94
    else SEED_ROWS
  }

  predicate Exclusive0(k: bv16) {
    && (KeyTest(k, 0x0FF3, 0x06E1) ==> Column0(k) == 8)
    && (KeyTest(k, 0x0FFF, 0x0123) ==> Column0(k) == 29)
    && (KeyTest(k, 0x0F00, 0x0300) ==> Column0(k) == 31)
    && (KeyTest(k, 0x0FBF, 0x0100) ==> Column0(k) == 42)
    && (KeyTest(k, 0x0F50, 0x0510) ==> Column0(k) == 73)
    && (KeyTest(k, 0x0E0F, 0x0009) ==> Column0(k) == 86)
    && (KeyTest(k, 0x0FF0, 0x0C50) ==> Column0(k) == 94)
  }

  lemma Column0Exclusive(k: bv16)
    ensures Exclusive0(k)
  {
  }

  function Column1(k: bv16): nat {
    if KeyTest(k, 0x0FFF, 0x0127) then 13
    else if KeyTest(k, 0x0FE0, 0x01A0) then 33
    else if KeyTest(k, 0x0DE0, 0x00C0) then 59
    else if KeyTest(k, 0x0DE0, 0x01C0) then 62
    else if KeyTest(k, 0x0F50, 0x0440) then 77
    else if KeyTest(k, 0x0F70, 0x0470) then 81
    else if KeyTest(k, 0x0FF0, 0x0C40) then 93
    else SEED_ROWS
  }

  predicate Exclusive1(k: bv16) {
    && (KeyTest(k, 0x0FFF, 0x0127) ==> Column1(k) == 13)
    && (KeyTest(k, 0x0FE0, 0x01A0) ==> Column1(k) == 33)
    && (KeyTest(k, 0x0DE0, 0x00C0) ==> Column1(k) == 59)
    && (KeyTest(k, 0x0DE0, 0x01C0) ==> Column1(k) == 62)
    && (KeyTest(k, 0x0F50, 0x0440) ==> Column1(k) == 77)
    && (KeyTest(k, 0x0F70, 0x0470) ==> Column1(k) == 81)
    && (KeyTest(k, 0x0FF0, 0x0C40) ==> Column1(k) == 93)
  }

  lemma Column1Exclusive(k: bv16)
    ensures Exclusive1(k)
  {
  }

  function Column2(k: bv16): nat {
    if KeyTest(k, 0x0FFF, 0x0576) then 11
    else if KeyTest(k, 0x0FFF, 0x0121) then 28
    else if KeyTest(k, 0x0F00, 0x0300) then 32
    else if KeyTest(k, 0x0E0F, 0x000F) then 48
    else if KeyTest(k, 0x0F70, 0x0450) then 80
    else if KeyTest(k, 0x0E0F, 0x0009) then 84
    else if KeyTest(k, 0x0F00, 0x0F00) then 97
    else SEED_ROWS
  }

  predicate Exclusive2(k: bv16) {
    && (KeyTest(k, 0x0FFF, 0x0576) ==> Column2(k) == 11)
    && (KeyTest(k, 0x0FFF, 0x0121) ==> Column2(k) == 28)
    && (KeyTest(k, 0x0F00, 0x0300) ==> Column2(k) == 32)
    && (KeyTest(k, 0x0E0F, 0x000F) ==> Column2(k) == 48)
    && (KeyTest(k, 0x0F70, 0x0450) ==> Column2(k) == 80)
    && (KeyTest(k, 0x0E0F, 0x0009) ==> Column2(k) == 84)
    && (KeyTest(k, 0x0F00, 0x0F00) ==> Column2(k) == 97)
  }

  lemma Column2Exclusive(k: bv16)
    ensures Exclusive2(k)
  {
  }

  function Column3(k: bv16): nat {
    if KeyTest(k, 0x0F50, 0x0510) then 12
    else if KeyTest(k, 0x0E10, 0x0800) then 21
    else if KeyTest(k, 0x0E0F, 0x0009) then 40
    else if KeyTest(k, 0x0FFF, 0x0120) then 43
    else if KeyTest(k, 0x0E0F, 0x000D) then 45
    else if KeyTest(k, 0x0FFF, 0x0320) then 100
    else SEED_ROWS
  }

  predicate Exclusive3(k: bv16) {
    && (KeyTest(k, 0x0F50, 0x0510) ==> Column3(k) == 12)
    && (KeyTest(k, 0x0E10, 0x0800) ==> Column3(k) == 21)
    && (KeyTest(k, 0x0E0F, 0x0009) ==> Column3(k) == 40)
    && (KeyTest(k, 0x0FFF, 0x0120) ==> Column3(k) == 43)
    && (KeyTest(k, 0x0E0F, 0x000D) ==> Column3(k) == 45)
    && (KeyTest(k, 0x0FFF, 0x0320) ==> Column3(k) == 100)
  }

  lemma Column3Exclusive(k: bv16)
    ensures Exclusive3(k)
  {
  }

  function Column4(k: bv16): nat {
    if KeyTest(k, 0x0FFF, 0x07C1) then 3
    else if KeyTest(k, 0x0E00, 0x0A00) then 17
    else if KeyTest(k, 0x0E0F, 0x000B) then 23
    else if KeyTest(k, 0x0E0F, 0x0009) then 41
    else if KeyTest(k, 0x0E50, 0x0610) then 82
    else if KeyTest(k, 0x0FBF, 0x0100) then 98
    else SEED_ROWS
  }

  predicate Exclusive4(k: bv16) {
    && (KeyTest(k, 0x0FFF, 0x07C1) ==> Column4(k) == 3)
    && (KeyTest(k, 0x0E00, 0x0A00) ==> Column4(k) == 17)
    && (KeyTest(k, 0x0E0F, 0x000B) ==> Column4(k) == 23)
    && (KeyTest(k, 0x0E0F, 0x0009) ==> Column4(k) == 41)
    && (KeyTest(k, 0x0E50, 0x0610) ==> Column4(k) == 82)
    && (KeyTest(k, 0x0FBF, 0x0100) ==> Column4(k) == 98)
  }

  lemma Column4Exclusive(k: bv16)
    ensures Exclusive4(k)
  {
  }

  function Column5(k: bv16): nat {
    if KeyTest(k, 0x0FFF, 0x07D1) then 2
    else if KeyTest(k, 0x0DE0, 0x01A0) then 30
    else if KeyTest(k, 0x0DE0, 0x0160) then 54
    else if KeyTest(k, 0x0DE0, 0x0080) then 57
    else if KeyTest(k, 0x0F00, 0x0A00) then 91
    else SEED_ROWS
  }

  predicate Exclusive5(k: bv16) {
    && (KeyTest(k, 0x0FFF, 0x07D1) ==> Column5(k) == 2)
    && (KeyTest(k, 0x0DE0, 0x01A0) ==> Column5(k) == 30)
    && (KeyTest(k, 0x0DE0, 0x0160) ==> Column5(k) == 54)
    && (KeyTest(k, 0x0DE0, 0x0080) ==> Column5(k) == 57)
    && (KeyTest(k, 0x0F00, 0x0A00) ==> Column5(k) == 91)
  }

  lemma Column5Exclusive(k: bv16)
    ensures Exclusive5(k)
  {
  }

  function Column6(k: bv16): nat {
    if KeyTest(k, 0x0FFF, 0x0161) then 6
    else if KeyTest(k, 0x0FFF, 0x0575) then 10
    else if KeyTest(k, 0x0DE0, 0x0100) then 51
    else if KeyTest(k, 0x0DE0, 0x0120) then 52
    else if KeyTest(k, 0x0DE0, 0x00A0) then 58
    else if KeyTest(k, 0x0F50, 0x0410) then 78
    else SEED_ROWS
  }

  predicate Exclusive6(k: bv16) {
    && (KeyTest(k, 0x0FFF, 0x0161) ==> Column6(k) == 6)
    && (KeyTest(k, 0x0FFF, 0x0575) ==> Column6(k) == 10)
    && (KeyTest(k, 0x0DE0, 0x0100) ==> Column6(k) == 51)
    && (KeyTest(k, 0x0DE0, 0x0120) ==> Column6(k) == 52)
    && (KeyTest(k, 0x0DE0, 0x00A0) ==> Column6(k) == 58)
    && (KeyTest(k, 0x0F50, 0x0410) ==> Column6(k) == 78)
  }

  lemma Column6Exclusive(k: bv16)
    ensures Exclusive6(k)
  {
  }

  function Column7(k: bv16): nat {
    if KeyTest(k, 0x0FFF, 0x0320) then 44
    else if KeyTest(k, 0x0E0F, 0x000F) then 47
    else if KeyTest(k, 0x0FE0, 0x03A0) then 70
    else if KeyTest(k, 0x0F70, 0x0400) then 79
    else if KeyTest(k, 0x0E0F, 0x0009) then 85
    else if KeyTest(k, 0x0FF0, 0x0C50) then 96
    else SEED_ROWS
  }

  predicate Exclusive7(k: bv16) {
    && (KeyTest(k, 0x0FFF, 0x0320) ==> Column7(k) == 44)
    && (KeyTest(k, 0x0E0F, 0x000F) ==> Column7(k) == 47)
    && (KeyTest(k, 0x0FE0, 0x03A0) ==> Column7(k) == 70)
    && (KeyTest(k, 0x0F70, 0x0400) ==> Column7(k) == 79)
    && (KeyTest(k, 0x0E0F, 0x0009) ==> Column7(k) == 85)
    && (KeyTest(k, 0x0FF0, 0x0C50) ==> Column7(k) == 96)
  }

  lemma Column7Exclusive(k: bv16)
    ensures Exclusive7(k)
  {
  }

  function Column8(k: bv16): nat {
    if KeyTest(k, 0x0FFF, 0x07C1) then 4
    else if KeyTest(k, 0x0FFF, 0x0120) then 15
    else if KeyTest(k, 0x0FE0, 0x01A0) then 34
    else if KeyTest(k, 0x0DE0, 0x0040) then 55
    else if KeyTest(k, 0x0DE0, 0x0180) then 61
    else if KeyTest(k, 0x0FF0, 0x0520) then 89
    else if KeyTest(k, 0x0FFF, 0x0EAE) then 101
    else SEED_ROWS
  }

  predicate Exclusive8(k: bv16) {
    && (KeyTest(k, 0x0FFF, 0x07C1) ==> Column8(k) == 4)
    && (KeyTest(k, 0x0FFF, 0x0120) ==> Column8(k) == 15)
    && (KeyTest(k, 0x0FE0, 0x01A0) ==> Column8(k) == 34)
    && (KeyTest(k, 0x0DE0, 0x0040) ==> Column8(k) == 55)
    && (KeyTest(k, 0x0DE0, 0x0180) ==> Column8(k) == 61)
    && (KeyTest(k, 0x0FF0, 0x0520) ==> Column8(k) == 89)
    && (KeyTest(k, 0x0FFF, 0x0EAE) ==> Column8(k) == 101)
  }

  lemma Column8Exclusive(k: bv16)
    ensures Exclusive8(k)
  {
  }

  function Column9(k: bv16): nat {
    if KeyTest(k, 0x0FFF, 0x0574) then 9
    else if KeyTest(k, 0x0E0F, 0x000B) then 25
    else if KeyTest(k, 0x0E50, 0x0600) then 37
    else if KeyTest(k, 0x0E0F, 0x000D) then 46
    else if KeyTest(k, 0x0F50, 0x0500) then 74
    else SEED_ROWS
  }

  predicate Exclusive9(k: bv16) {
    && (KeyTest(k, 0x0FFF, 0x0574) ==> Column9(k) == 9)
    && (KeyTest(k, 0x0E0F, 0x000B) ==> Column9(k) == 25)
    && (KeyTest(k, 0x0E50, 0x0600) ==> Column9(k) == 37)
    && (KeyTest(k, 0x0E0F, 0x000D) ==> Column9(k) == 46)
    && (KeyTest(k, 0x0F50, 0x0500) ==> Column9(k) == 74)
  }

  lemma Column9Exclusive(k: bv16)
    ensures Exclusive9(k)
  {
  }

  function Column10(k: bv16): nat {
    if KeyTest(k, 0x0F10, 0x0800) then 18
    else if KeyTest(k, 0x0F10, 0x0810) then 19
    else if KeyTest(k, 0x0E0F, 0x000D) then 26
    else if KeyTest(k, 0x0FE0, 0x03E0) then 72
    else if KeyTest(k, 0x0E0F, 0x0009) then 83
    else if KeyTest(k, 0x0FFF, 0x0320) then 99
    else SEED_ROWS
  }

  predicate Exclusive10(k: bv16) {
    && (KeyTest(k, 0x0F10, 0x0800) ==> Column10(k) == 18)
    && (KeyTest(k, 0x0F10, 0x0810) ==> Column10(k) == 19)
    && (KeyTest(k, 0x0E0F, 0x000D) ==> Column10(k) == 26)
    && (KeyTest(k, 0x0FE0, 0x03E0) ==> Column10(k) == 72)
    && (KeyTest(k, 0x0E0F, 0x0009) ==> Column10(k) == 83)
    && (KeyTest(k, 0x0FFF, 0x0320) ==> Column10(k) == 99)
  }

  lemma Column10Exclusive(k: bv16)
    ensures Exclusive10(k)
  {
  }

  function Column11(k: bv16): nat {
    if KeyTest(k, 0x0FFF, 0x07D1) then 5
    else if KeyTest(k, 0x0E10, 0x0810) then 20
    else if KeyTest(k, 0x0FE0, 0x01A0) then 36
    else if KeyTest(k, 0x0DE0, 0x0140) then 53
    else if KeyTest(k, 0x0DE0, 0x0060) then 56
    else if KeyTest(k, 0x0FE0, 0x03C0) then 71
    else SEED_ROWS
  }

  predicate Exclusive11(k: bv16) {
    && (KeyTest(k, 0x0FFF, 0x07D1) ==> Column11(k) == 5)
    && (KeyTest(k, 0x0E10, 0x0810) ==> Column11(k) == 20)
    && (KeyTest(k, 0x0FE0, 0x01A0) ==> Column11(k) == 36)
    && (KeyTest(k, 0x0DE0, 0x0140) ==> Column11(k) == 53)
    && (KeyTest(k, 0x0DE0, 0x0060) ==> Column11(k) == 56)
    && (KeyTest(k, 0x0FE0, 0x03C0) ==> Column11(k) == 71)
  }

  lemma Column11Exclusive(k: bv16)
    ensures Exclusive11(k)
  {
  }

  function Column12(k: bv16): nat {
    if KeyTest(k, 0x0FFF, 0x0019) then 0
    else if KeyTest(k, 0x0E0F, 0x000B) then 24
    else if KeyTest(k, 0x0E0F, 0x000F) then 27
    else if KeyTest(k, 0x0FFF, 0x0490) then 90
    else if KeyTest(k, 0x0F00, 0x0B00) then 92
    else SEED_ROWS
  }

  predicate Exclusive12(k: bv16) {
    && (KeyTest(k, 0x0FFF, 0x0019) ==> Column12(k) == 0)
    && (KeyTest(k, 0x0E0F, 0x000B) ==> Column12(k) == 24)
    && (KeyTest(k, 0x0E0F, 0x000F) ==> Column12(k) == 27)
    && (KeyTest(k, 0x0FFF, 0x0490) ==> Column12(k) == 90)
    && (KeyTest(k, 0x0F00, 0x0B00) ==> Column12(k) == 92)
  }

  lemma Column12Exclusive(k: bv16)
    ensures Exclusive12(k)
  {
  }

  function Column13(k: bv16): nat {
    if KeyTest(k, 0x0FFF, 0x0019) then 1
    else if KeyTest(k, 0x0FFF, 0x0320) then 16
    else if KeyTest(k, 0x0E0F, 0x000B) then 22
    else if KeyTest(k, 0x0F71, 0x0740) then 39
    else if KeyTest(k, 0x0FE0, 0x0380) then 69
    else if KeyTest(k, 0x0F7F, 0x0750) then 87
    else SEED_ROWS
  }

  predicate Exclusive13(k: bv16) {
    && (KeyTest(k, 0x0FFF, 0x0019) ==> Column13(k) == 1)
    && (KeyTest(k, 0x0FFF, 0x0320) ==> Column13(k) == 16)
    && (KeyTest(k, 0x0E0F, 0x000B) ==> Column13(k) == 22)
    && (KeyTest(k, 0x0F71, 0x0740) ==> Column13(k) == 39)
    && (KeyTest(k, 0x0FE0, 0x0380) ==> Column13(k) == 69)
    && (KeyTest(k, 0x0F7F, 0x0750) ==> Column13(k) == 87)
  }

  lemma Column13Exclusive(k: bv16)
    ensures Exclusive13(k)
  {
  }

  function Column14(k: bv16): nat {
    if KeyTest(k, 0x0FFF, 0x06F3) then 7
    else if KeyTest(k, 0x0FE0, 0x01A0) then 35
    else if KeyTest(k, 0x0DE0, 0x00E0) then 60
    else if KeyTest(k, 0x0DE0, 0x01E0) then 63
    else if KeyTest(k, 0x0FE0, 0x0200) then 64
    else if KeyTest(k, 0x0FF0, 0x0C40) then 95
    else SEED_ROWS
  }

  predicate Exclusive14(k: bv16) {
    && (KeyTest(k, 0x0FFF, 0x06F3) ==> Column14(k) == 7)
    && (KeyTest(k, 0x0FE0, 0x01A0) ==> Column14(k) == 35)
    && (KeyTest(k, 0x0DE0, 0x00E0) ==> Column14(k) == 60)
    && (KeyTest(k, 0x0DE0, 0x01E0) ==> Column14(k) == 63)
    && (KeyTest(k, 0x0FE0, 0x0200) ==> Column14(k) == 64)
    && (KeyTest(k, 0x0FF0, 0x0C40) ==> Column14(k) == 95)
  }

  lemma Column14Exclusive(k: bv16)
    ensures Exclusive14(k)
  {
  }

  function Column15(k: bv16): nat {
    if KeyTest(k, 0x0F00, 0x0100) then 14
    else if KeyTest(k, 0x0F7F, 0x0740) then 38
    else if KeyTest(k, 0x0DE0, 0x0000) then 49
    else if KeyTest(k, 0x0DE0, 0x0020) then 50
    else if KeyTest(k, 0x0F50, 0x0540) then 75
    else if KeyTest(k, 0x0F50, 0x0550) then 76
    else if KeyTest(k, 0x0F71, 0x0750) then 88
    else SEED_ROWS
  }

  predicate Exclusive15(k: bv16) {
    && (KeyTest(k, 0x0F00, 0x0100) ==> Column15(k) == 14)
    && (KeyTest(k, 0x0F7F, 0x0740) ==> Column15(k) == 38)
    && (KeyTest(k, 0x0DE0, 0x0000) ==> Column15(k) == 49)
    && (KeyTest(k, 0x0DE0, 0x0020) ==> Column15(k) == 50)
    && (KeyTest(k, 0x0F50, 0x0540) ==> Column15(k) == 75)
    && (KeyTest(k, 0x0F50, 0x0550) ==> Column15(k) == 76)
    && (KeyTest(k, 0x0F71, 0x0750) ==> Column15(k) == 88)
  }

  lemma Column15Exclusive(k: bv16)
    ensures Exclusive15(k)
  {
  }

  /** For each column, the row of it that matches the key, if any. */
  function Columns(k: bv16): set<nat> {
    {Column0(k), Column1(k), Column2(k), Column3(k), Column4(k), Column5(k), Column6(k), Column7(k),
     Column8(k), Column9(k), Column10(k), Column11(k), Column12(k), Column13(k), Column14(k), Column15(k)}
  }

  lemma DeadRows(k: bv16)
    ensures !KeyTest(k, 0x0FE0, 0x0310) && !KeyTest(k, 0x0FE0, 0x0330)
    ensures !KeyTest(k, 0x0FE0, 0x0350) && !KeyTest(k, 0x0FE0, 0x0370)
  {
  }

  /** What the columns say of a key, all at once. */
  predicate ColumnsExclusive(k: bv16) {
    && Exclusive0(k) && Exclusive1(k) && Exclusive2(k) && Exclusive3(k) && Exclusive4(k) && Exclusive5(k)
    && Exclusive6(k) && Exclusive7(k) && Exclusive8(k) && Exclusive9(k) && Exclusive10(k) && Exclusive11(k)
    && Exclusive12(k) && Exclusive13(k) && Exclusive14(k) && Exclusive15(k)
    && !KeyTest(k, 0x0FE0, 0x0310) && !KeyTest(k, 0x0FE0, 0x0330)
    && !KeyTest(k, 0x0FE0, 0x0350) && !KeyTest(k, 0x0FE0, 0x0370)
  }

  lemma AllExclusive(k: bv16)
    ensures ColumnsExclusive(k)
  {
    hide KeyTest, Exclusive0, Exclusive1, Exclusive2, Exclusive3, Exclusive4, Exclusive5, Exclusive6, Exclusive7;
    hide Exclusive8, Exclusive9, Exclusive10, Exclusive11, Exclusive12, Exclusive13, Exclusive14, Exclusive15;
    Column0Exclusive(k);
    Column1Exclusive(k);
    Column2Exclusive(k);
    Column3Exclusive(k);
    Column4Exclusive(k);
    Column5Exclusive(k);
    Column6Exclusive(k);
    Column7Exclusive(k);
    Column8Exclusive(k);
    Column9Exclusive(k);
    Column10Exclusive(k);
    Column11Exclusive(k);
    Column12Exclusive(k);
    Column13Exclusive(k);
    Column14Exclusive(k);
    Column15Exclusive(k);
    DeadRows(k);
  }

  lemma Rows0InColumns(i: nat, k: bv16)
    requires 0 <= i < 10 && KeyMatch(Rows0(i), k) && ColumnsExclusive(k)
    ensures i in Columns(k)
  {
    hide KeyTest, Column0, Column1, Column2, Column3, Column4, Column5, Column6, Column7;
    hide Column8, Column9, Column10, Column11, Column12, Column13, Column14, Column15;
  }

  lemma Rows10InColumns(i: nat, k: bv16)
    requires 10 <= i < 20 && KeyMatch(Rows10(i), k) && ColumnsExclusive(k)
    ensures i in Columns(k)
  {
    hide KeyTest, Column0, Column1, Column2, Column3, Column4, Column5, Column6, Column7;
    hide Column8, Column9, Column10, Column11, Column12, Column13, Column14, Column15;
  }

  lemma Rows20InColumns(i: nat, k: bv16)
    requires 20 <= i < 30 && KeyMatch(Rows20(i), k) && ColumnsExclusive(k)
    ensures i in Columns(k)
  {
    hide KeyTest, Column0, Column1, Column2, Column3, Column4, Column5, Column6, Column7;
    hide Column8, Column9, Column10, Column11, Column12, Column13, Column14, Column15;
  }

  lemma Rows30InColumns(i: nat, k: bv16)
    requires 30 <= i < 40 && KeyMatch(Rows30(i), k) && ColumnsExclusive(k)
    ensures i in Columns(k)
  {
    hide KeyTest, Column0, Column1, Column2, Column3, Column4, Column5, Column6, Column7;
    hide Column8, Column9, Column10, Column11, Column12, Column13, Column14, Column15;
  }

  lemma Rows40InColumns(i: nat, k: bv16)
    requires 40 <= i < 50 && KeyMatch(Rows40(i), k) && ColumnsExclusive(k)
    ensures i in Columns(k)
  {
    hide KeyTest, Column0, Column1, Column2, Column3, Column4, Column5, Column6, Column7;
    hide Column8, Column9, Column10, Column11, Column12, Column13, Column14, Column15;
  }

  lemma Rows50InColumns(i: nat, k: bv16)
    requires 50 <= i < 60 && KeyMatch(Rows50(i), k) && ColumnsExclusive(k)
    ensures i in Columns(k)
  {
    hide KeyTest, Column0, Column1, Column2, Column3, Column4, Column5, Column6, Column7;
    hide Column8, Column9, Column10, Column11, Column12, Column13, Column14, Column15;
  }

  lemma Rows60InColumns(i: nat, k: bv16)
    requires 60 <= i < 70 && KeyMatch(Rows60(i), k) && ColumnsExclusive(k)
    ensures i in Columns(k)
  {
    hide KeyTest, Column0, Column1, Column2, Column3, Column4, Column5, Column6, Column7;
    hide Column8, Column9, Column10, Column11, Column12, Column13, Column14, Column15;
  }

  lemma Rows70InColumns(i: nat, k: bv16)
    requires 70 <= i < 80 && KeyMatch(Rows70(i), k) && ColumnsExclusive(k)
    ensures i in Columns(k)
  {
    hide KeyTest, Column0, Column1, Column2, Column3, Column4, Column5, Column6, Column7;
    hide Column8, Column9, Column10, Column11, Column12, Column13, Column14, Column15;
  }

  lemma Rows80InColumns(i: nat, k: bv16)
    requires 80 <= i < 90 && KeyMatch(Rows80(i), k) && ColumnsExclusive(k)
    ensures i in Columns(k)
  {
    hide KeyTest, Column0, Column1, Column2, Column3, Column4, Column5, Column6, Column7;
    hide Column8, Column9, Column10, Column11, Column12, Column13, Column14, Column15;
  }

  lemma Rows90InColumns(i: nat, k: bv16)
    requires 90 <= i < 100 && KeyMatch(Rows90(i), k) && ColumnsExclusive(k)
    ensures i in Columns(k)
  {
    hide KeyTest, Column0, Column1, Column2, Column3, Column4, Column5, Column6, Column7;
    hide Column8, Column9, Column10, Column11, Column12, Column13, Column14, Column15;
  }

  lemma Rows100InColumns(i: nat, k: bv16)
    requires 100 <= i < 102 && KeyMatch(Rows100(i), k) && ColumnsExclusive(k)
    ensures i in Columns(k)
  {
    hide KeyTest, Column0, Column1, Column2, Column3, Column4, Column5, Column6, Column7;
    hide Column8, Column9, Column10, Column11, Column12, Column13, Column14, Column15;
  }

  /** A matching row is the one its column names. */
  lemma MatchInColumns(i: nat, k: bv16)
    requires i < SEED_ROWS && KeyMatch(SeedRow(i), k)
    ensures i in Columns(k)
  {
    AllExclusive(k);
    hide KeyMatch, Columns, ColumnsExclusive;
    hide Rows0, Rows10, Rows20, Rows30, Rows40, Rows50, Rows60, Rows70, Rows80, Rows90, Rows100;
    if i < 10 {
      Rows0InColumns(i, k);
    } else if i < 20 {
      Rows10InColumns(i, k);
    } else if i < 30 {
      Rows20InColumns(i, k);
    } else if i < 40 {
      Rows30InColumns(i, k);
    } else if i < 50 {
      Rows40InColumns(i, k);
    } else if i < 60 {
      Rows50InColumns(i, k);
    } else if i < 70 {
      Rows60InColumns(i, k);
    } else if i < 80 {
      Rows70InColumns(i, k);
    } else if i < 90 {
      Rows80InColumns(i, k);
    } else if i < 100 {
      Rows90InColumns(i, k);
    } else {
      Rows100InColumns(i, k);
    }
  }

  /** No key has more than sixteen matching seed rows. */
  lemma AtMostSixteen(k: bv16)
    ensures |Matching(Seed(), k)| <= 16
  {
    hide KeyMatch, SeedRow, Column0, Column1, Column2, Column3, Column4, Column5, Column6, Column7;
    hide Column8, Column9, Column10, Column11, Column12, Column13, Column14, Column15;
    forall i | i in Matching(Seed(), k)
      ensures i in Columns(k)
    {
      MatchInColumns(i, k);
    }
    SubsetSize(Matching(Seed(), k), Columns(k));
    SixteenAtMost(Column0(k), Column1(k), Column2(k), Column3(k), Column4(k), Column5(k), Column6(k), Column7(k),
                  Column8(k), Column9(k), Column10(k), Column11(k), Column12(k), Column13(k), Column14(k), Column15(k));
  }

  lemma SixteenAtMost(a: nat, b: nat, c: nat, d: nat, e: nat, f: nat, g: nat, h: nat,
                      i: nat, j: nat, l: nat, m: nat, n: nat, o: nat, p: nat, q: nat)
    ensures |{a, b, c, d, e, f, g, h, i, j, l, m, n, o, p, q}| <= 16
  {
  }

  /** For every instruction word, decoding through the candidate lists of the shipped table is a linear scan of it. */
  lemma SeedDecodesLikeScan(instr: bv32)
    ensures Selection(Seed(), instr) == LinearScan(Seed(), instr, SEED_ROWS)
  {
    hide *;
    SeedLength();
    AtMostSixteen(Key12(instr));
    NoOverflowDecodesLikeScan(Seed(), instr);
  }

  lemma SeedLength()
    ensures |Seed()| == SEED_ROWS && SEED_ROWS == 102 && MAX_PER_KEY == 16
  {
  }

  // ---- rows no instruction can reach ----

  /** MLA, PUSH, SWPB, the three MRS/MSR rows for SPSR, and TST, TEQ, CMP and CMN with an immediate. */
  predicate Dead(i: nat) { i == 1 || i == 18 || 41 <= i <= 44 || 65 <= i <= 68 }

  lemma Rows0Reach(i: nat)
    requires 0 <= i < 10
    ensures Satisfiable(Rows0(i)) <==> !Dead(i)
  {
    hide Satisfiable, Rows0;
    if i < 5 {
      Rows0ReachLow(i);
    } else {
      Rows0ReachHigh(i);
    }
  }

  lemma Rows0ReachLow(i: nat)
    requires 0 <= i < 5
    ensures Satisfiable(Rows0(i)) <==> !Dead(i)
  {
  }

  lemma Rows0ReachHigh(i: nat)
    requires 5 <= i < 10
    ensures Satisfiable(Rows0(i)) <==> !Dead(i)
  {
  }

  lemma Rows10Reach(i: nat)
    requires 10 <= i < 20
    ensures Satisfiable(Rows10(i)) <==> !Dead(i)
  {
  }

  lemma Rows20Reach(i: nat)
    requires 20 <= i < 30
    ensures Satisfiable(Rows20(i)) <==> !Dead(i)
  {
    hide Satisfiable, Rows20;
    if i < 25 {
      Rows20ReachLow(i);
    } else {
      Rows20ReachHigh(i);
    }
  }

  lemma Rows20ReachLow(i: nat)
    requires 20 <= i < 25
    ensures Satisfiable(Rows20(i)) <==> !Dead(i)
  {
  }

  lemma Rows20ReachHigh(i: nat)
    requires 25 <= i < 30
    ensures Satisfiable(Rows20(i)) <==> !Dead(i)
  {
  }

  lemma Rows30Reach(i: nat)
    requires 30 <= i < 40
    ensures Satisfiable(Rows30(i)) <==> !Dead(i)
  {
  }

  lemma Rows40Reach(i: nat)
    requires 40 <= i < 50
    ensures Satisfiable(Rows40(i)) <==> !Dead(i)
  {
    hide Satisfiable, Rows40;
    if i < 45 {
      Rows40ReachLow(i);
    } else {
      Rows40ReachHigh(i);
    }
  }

  lemma Rows40ReachLow(i: nat)
    requires 40 <= i < 45
    ensures Satisfiable(Rows40(i)) <==> !Dead(i)
  {
  }

  lemma Rows40ReachHigh(i: nat)
    requires 45 <= i < 50
    ensures Satisfiable(Rows40(i)) <==> !Dead(i)
  {
  }

  lemma Rows50Reach(i: nat)
    requires 50 <= i < 60
    ensures Satisfiable(Rows50(i)) <==> !Dead(i)
  {
  }

  lemma Rows60Reach(i: nat)
    requires 60 <= i < 70
    ensures Satisfiable(Rows60(i)) <==> !Dead(i)
  {
  }

  lemma Rows70Reach(i: nat)
    requires 70 <= i < 80
    ensures Satisfiable(Rows70(i)) <==> !Dead(i)
  {
  }

  lemma Rows80Reach(i: nat)
    requires 80 <= i < 90
    ensures Satisfiable(Rows80(i)) <==> !Dead(i)
  {
    hide Satisfiable, Rows80;
    if i < 85 {
      Rows80ReachLow(i);
    } else {
      Rows80ReachHigh(i);
    }
  }

  lemma Rows80ReachLow(i: nat)
    requires 80 <= i < 85
    ensures Satisfiable(Rows80(i)) <==> !Dead(i)
  {
  }

  lemma Rows80ReachHigh(i: nat)
    requires 85 <= i < 90
    ensures Satisfiable(Rows80(i)) <==> !Dead(i)
  {
  }

  lemma Rows90Reach(i: nat)
    requires 90 <= i < 100
    ensures Satisfiable(Rows90(i)) <==> !Dead(i)
  {
  }

  lemma Rows100Reach(i: nat)
    requires 100 <= i < 102
    ensures Satisfiable(Rows100(i)) <==> !Dead(i)
  {
  }

  /** Exactly ten of the 102 rows can match no instruction at all. */
  lemma DeadExactly(i: nat)
    requires i < SEED_ROWS
    ensures (exists instr :: FullMatch(SeedRow(i), instr)) <==> !Dead(i)
  {
    hide FullMatch, Satisfiable, Rows0, Rows10, Rows20, Rows30, Rows40, Rows50, Rows60, Rows70, Rows80, Rows90, Rows100;
    ReachableIff(SeedRow(i));
    if i < 10 {
      Rows0Reach(i);
    } else if i < 20 {
      Rows10Reach(i);
    } else if i < 30 {
      Rows20Reach(i);
    } else if i < 40 {
      Rows30Reach(i);
    } else if i < 50 {
      Rows40Reach(i);
    } else if i < 60 {
      Rows50Reach(i);
    } else if i < 70 {
      Rows60Reach(i);
    } else if i < 80 {
      Rows70Reach(i);
    } else if i < 90 {
      Rows80Reach(i);
    } else if i < 100 {
      Rows90Reach(i);
    } else {
      Rows100Reach(i);
    }
  }

  const LDRSB := 26
  const LDRD_IMM := 45
  const CPS := 14

  /** LDRSB and LDRD(imm) tie, can both match, and then the earlier row is decoded. */
  lemma LdrsbHidesLdrd()
    ensures Priority(SeedRow(LDRSB)) == Priority(SeedRow(LDRD_IMM))
    ensures exists instr :: FullMatch(SeedRow(LDRSB), instr) && FullMatch(SeedRow(LDRD_IMM), instr)
    ensures forall instr :: FullMatch(SeedRow(LDRSB), instr) ==> LinearScan(Seed(), instr, SEED_ROWS) != Some(LDRD_IMM)
  {
    assert FullMatch(SeedRow(LDRSB), 0x005000D0) && FullMatch(SeedRow(LDRD_IMM), 0x005000D0);
    forall instr | FullMatch(SeedRow(LDRSB), instr)
      ensures LinearScan(Seed(), instr, SEED_ROWS) != Some(LDRD_IMM)
    {
      EarlierWinsTie(instr, LDRSB, LDRD_IMM);
    }
  }

  lemma EarlierWinsTie(instr: bv32, i: nat, j: nat)
    requires i < j < SEED_ROWS && Priority(SeedRow(i)) == Priority(SeedRow(j)) && FullMatch(SeedRow(i), instr)
    ensures LinearScan(Seed(), instr, SEED_ROWS) != Some(j)
  {
    hide Priority, FullMatch, SeedRow;
    LinearScanIsBest(Seed(), instr, SEED_ROWS);
  }
}
