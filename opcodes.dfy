/// Opcode numbering of src/machine/thread/instructions.rs: the instruction table is
/// declared in order and each entry gets the next number from 0, together with its
/// mnemonic; two maps translate between mnemonics and numbers.
module Opcodes {
  import opened Wrappers

  /// Number of declared instructions; every opcode at or above it is unknown.
  const COUNT: nat := 108

  const NOOP: nat := 0
  const ADD: nat := 1
  const SUB: nat := 2
  const MUL: nat := 3
  const DIV: nat := 4
  const REM: nat := 5
  const POW: nat := 6
  const MIN: nat := 7
  const MAX: nat := 8
  const CADD: nat := 9
  const CSUB: nat := 10
  const CMUL: nat := 11
  const IADD: nat := 12
  const ISUB: nat := 13
  const IMUL: nat := 14
  const IDIV: nat := 15
  const IREM: nat := 16
  const IREME: nat := 17
  const IABS: nat := 18
  const IPOW: nat := 19
  const IMIN: nat := 20
  const IMAX: nat := 21
  const ICADD: nat := 22
  const ICSUB: nat := 23
  const SHL: nat := 24
  const SHR: nat := 25
  const WSHL: nat := 26
  const WSHR: nat := 27
  const AND: nat := 28
  const OR: nat := 29
  const XOR: nat := 30
  const NEG: nat := 31
  const CONVI2U: nat := 32
  const CONVU2I: nat := 33
  const CONVF2U: nat := 34
  const CONVU2F: nat := 35
  const CONVF2I: nat := 36
  const CONVI2F: nat := 37
  const FADD: nat := 38
  const FSUB: nat := 39
  const FMUL: nat := 40
  const FDIV: nat := 41
  const FREM: nat := 42
  const FREME: nat := 43
  const FABS: nat := 44
  const FPOWI: nat := 45
  const FPOW: nat := 46
  const FLOOR: nat := 47
  const CEIL: nat := 48
  const ROUND: nat := 49
  const SIGN: nat := 50
  const FPART: nat := 51
  const IPART: nat := 52
  const RECIP: nat := 53
  const SQRT: nat := 54
  const CBRT: nat := 55
  const EXP: nat := 56
  const EXP2: nat := 57
  const EXPM1: nat := 58
  const LN: nat := 59
  const LOG: nat := 60
  const LOG2: nat := 61
  const LOG10: nat := 62
  const LN1P: nat := 63
  const FMIN: nat := 64
  const FMAX: nat := 65
  const SIN: nat := 66
  const ASIN: nat := 67
  const SINH: nat := 68
  const ASINH: nat := 69
  const COS: nat := 70
  const ACOS: nat := 71
  const COSH: nat := 72
  const ACOSH: nat := 73
  const TAN: nat := 74
  const ATAN: nat := 75
  const TANH: nat := 76
  const ATANH: nat := 77
  const ATAN2: nat := 78
  const SINCOS: nat := 79
  const MAG2D: nat := 80
  const CMP: nat := 81
  const ICMP: nat := 82
  const FCMP: nat := 83
  const JMP: nat := 84
  const JZ: nat := 85
  const JNZ: nat := 86
  const CLZF: nat := 87
  const JS: nat := 88
  const JNS: nat := 89
  const CLSF: nat := 90
  const JC: nat := 91
  const JNC: nat := 92
  const CLCF: nat := 93
  const JE: nat := 94
  const JNE: nat := 95
  const CLEF: nat := 96
  const JL: nat := 97
  const JNL: nat := 98
  const CLLF: nat := 99
  const WRITE_STDOUT: nat := 100
  const FLUSH_STDOUT: nat := 101
  const READ_STDIN: nat := 102
  const LD: nat := 103
  const ST: nat := 104
  const MOV: nat := 105
  const LD8: nat := 106
  const ST8: nat := 107

  /// The mnemonic declared for each opcode, in declaration order.
  function Name(op: nat): string
    requires op < COUNT
  {
    match op
    case 0 => "noop"
    case 1 => "add"
    case 2 => "sub"
    case 3 => "mul"
    case 4 => "div"
    case 5 => "rem"
    case 6 => "pow"
    case 7 => "min"
    case 8 => "max"
    case 9 => "cadd"
    case 10 => "csub"
    case 11 => "cmul"
    case 12 => "iadd"
    case 13 => "isub"
    case 14 => "imul"
    case 15 => "idiv"
    case 16 => "irem"
    case 17 => "ireme"
    case 18 => "iabs"
    case 19 => "ipow"
    case 20 => "imin"
    case 21 => "imax"
    case 22 => "icadd"
    case 23 => "icsub"
    case 24 => "shl"
    case 25 => "shr"
    case 26 => "wshl"
    case 27 => "wshr"
    case 28 => "and"
    case 29 => "or"
    case 30 => "xor"
    case 31 => "neg"
    case 32 => "convi2u"
    case 33 => "convu2i"
    case 34 => "convf2u"
    case 35 => "convu2f"
    case 36 => "convf2i"
    case 37 => "convi2f"
    case 38 => "fadd"
    case 39 => "fsub"
    case 40 => "fmul"
    case 41 => "fdiv"
    case 42 => "frem"
    case 43 => "freme"
    case 44 => "fabs"
    case 45 => "fpowi"
    case 46 => "fpow"
    case 47 => "floor"
    case 48 => "ceil"
    case 49 => "round"
    case 50 => "sign"
    case 51 => "fpart"
    case 52 => "ipart"
    case 53 => "recip"
    case 54 => "sqrt"
    case 55 => "cbrt"
    case 56 => "exp"
    case 57 => "exp2"
    case 58 => "expm1"
    case 59 => "ln"
    case 60 => "log"
    case 61 => "log2"
    case 62 => "log10"
    case 63 => "ln1p"
    case 64 => "fmin"
    case 65 => "fmax"
    case 66 => "sin"
    case 67 => "asin"
    case 68 => "sinh"
    case 69 => "asinh"
    case 70 => "cos"
    case 71 => "acos"
    case 72 => "cosh"
    case 73 => "acosh"
    case 74 => "tan"
    case 75 => "atan"
    case 76 => "tanh"
    case 77 => "atanh"
    case 78 => "atan2"
    case 79 => "sincos"
    case 80 => "mag2d"
    case 81 => "cmp"
    case 82 => "icmp"
    case 83 => "fcmp"
    case 84 => "jmp"
    case 85 => "jz"
    case 86 => "jnz"
    case 87 => "clzf"
    case 88 => "js"
    case 89 => "jns"
    case 90 => "clsf"
    case 91 => "jc"
    case 92 => "jnc"
    case 93 => "clcf"
    case 94 => "je"
    case 95 => "jne"
    case 96 => "clef"
    case 97 => "jl"
    case 98 => "jnl"
    case 99 => "cllf"
    case 100 => "write_stdout"
    case 101 => "flush_stdout"
    case 102 => "read_stdin"
    case 103 => "ld"
    case 104 => "st"
    case 105 => "mov"
    case 106 => "ld8"
    case 107 => "st8"
  }

  /// The mnemonic table read the other way: which opcode a string names. It is
  /// split by length and first letter so that each lookup compares few strings.
  ghost function OpcodeOf(name: string): Option<nat>
  {
    if |name| == 0 then None else OpcodeOfLength(name)
  }

  ghost function OpcodeOfLength(name: string): Option<nat>
    requires |name| > 0
  {
    match |name|
    case 2 => OpcodeOfLength2(name)
    case 3 => OpcodeOfLength3(name)
    case 4 => OpcodeOfLength4(name)
    case 5 => OpcodeOfLength5(name)
    case 6 => OpcodeOfLength6(name)
    case 7 => OpcodeOfLength7(name)
    case 10 => OpcodeOfLength10(name)
    case 12 => OpcodeOfLength12(name)
    case _ => None
  }

  ghost function OpcodeOfLength2(name: string): Option<nat>
    requires |name| > 0
  {
    match name[0]
    case 'j' => (match name
      case "jz" => Some(85)
      case "js" => Some(88)
      case "jc" => Some(91)
      case "je" => Some(94)
      case "jl" => Some(97)
      case _ => None)
    case 'l' => (match name
      case "ln" => Some(59)
      case "ld" => Some(103)
      case _ => None)
    case 'o' => (match name
      case "or" => Some(29)
      case _ => None)
    case 's' => (match name
      case "st" => Some(104)
      case _ => None)
    case _ => None
  }

  ghost function OpcodeOfLength3(name: string): Option<nat>
    requires |name| > 0
  {
    match name[0]
    case 'a' => (match name
      case "add" => Some(1)
      case "and" => Some(28)
      case _ => None)
    case 'c' => (match name
      case "cos" => Some(70)
      case "cmp" => Some(81)
      case _ => None)
    case 'd' => (match name
      case "div" => Some(4)
      case _ => None)
    case 'e' => (match name
      case "exp" => Some(56)
      case _ => None)
    case 'j' => (match name
      case "jmp" => Some(84)
      case "jnz" => Some(86)
      case "jns" => Some(89)
      case "jnc" => Some(92)
      case "jne" => Some(95)
      case "jnl" => Some(98)
      case _ => None)
    case 'l' => (match name
      case "log" => Some(60)
      case "ld8" => Some(106)
      case _ => None)
    case 'm' => (match name
      case "mul" => Some(3)
      case "min" => Some(7)
      case "max" => Some(8)
      case "mov" => Some(105)
      case _ => None)
    case 'n' => (match name
      case "neg" => Some(31)
      case _ => None)
    case 'p' => (match name
      case "pow" => Some(6)
      case _ => None)
    case 'r' => (match name
      case "rem" => Some(5)
      case _ => None)
    case 's' => (match name
      case "sub" => Some(2)
      case "shl" => Some(24)
      case "shr" => Some(25)
      case "sin" => Some(66)
      case "st8" => Some(107)
      case _ => None)
    case 't' => (match name
      case "tan" => Some(74)
      case _ => None)
    case 'x' => (match name
      case "xor" => Some(30)
      case _ => None)
    case _ => None
  }

  ghost function OpcodeOfLength4(name: string): Option<nat>
    requires |name| > 0
  {
    match name[0]
    case 'a' => (match name
      case "asin" => Some(67)
      case "acos" => Some(71)
      case "atan" => Some(75)
      case _ => None)
    case 'c' => (match name
      case "cadd" => Some(9)
      case "csub" => Some(10)
      case "cmul" => Some(11)
      case "ceil" => Some(48)
      case "cbrt" => Some(55)
      case "cosh" => Some(72)
      case "clzf" => Some(87)
      case "clsf" => Some(90)
      case "clcf" => Some(93)
      case "clef" => Some(96)
      case "cllf" => Some(99)
      case _ => None)
    case 'e' => (match name
      case "exp2" => Some(57)
      case _ => None)
    case 'f' => (match name
      case "fadd" => Some(38)
      case "fsub" => Some(39)
      case "fmul" => Some(40)
      case "fdiv" => Some(41)
      case "frem" => Some(42)
      case "fabs" => Some(44)
      case "fpow" => Some(46)
      case "fmin" => Some(64)
      case "fmax" => Some(65)
      case "fcmp" => Some(83)
      case _ => None)
    case 'i' => (match name
      case "iadd" => Some(12)
      case "isub" => Some(13)
      case "imul" => Some(14)
      case "idiv" => Some(15)
      case "irem" => Some(16)
      case "iabs" => Some(18)
      case "ipow" => Some(19)
      case "imin" => Some(20)
      case "imax" => Some(21)
      case "icmp" => Some(82)
      case _ => None)
    case 'l' => (match name
      case "log2" => Some(61)
      case "ln1p" => Some(63)
      case _ => None)
    case 'n' => (match name
      case "noop" => Some(0)
      case _ => None)
    case 's' => (match name
      case "sign" => Some(50)
      case "sqrt" => Some(54)
      case "sinh" => Some(68)
      case _ => None)
    case 't' => (match name
      case "tanh" => Some(76)
      case _ => None)
    case 'w' => (match name
      case "wshl" => Some(26)
      case "wshr" => Some(27)
      case _ => None)
    case _ => None
  }

  ghost function OpcodeOfLength5(name: string): Option<nat>
    requires |name| > 0
  {
    match name[0]
    case 'a' => (match name
      case "asinh" => Some(69)
      case "acosh" => Some(73)
      case "atanh" => Some(77)
      case "atan2" => Some(78)
      case _ => None)
    case 'e' => (match name
      case "expm1" => Some(58)
      case _ => None)
    case 'f' => (match name
      case "freme" => Some(43)
      case "fpowi" => Some(45)
      case "floor" => Some(47)
      case "fpart" => Some(51)
      case _ => None)
    case 'i' => (match name
      case "ireme" => Some(17)
      case "icadd" => Some(22)
      case "icsub" => Some(23)
      case "ipart" => Some(52)
      case _ => None)
    case 'l' => (match name
      case "log10" => Some(62)
      case _ => None)
    case 'm' => (match name
      case "mag2d" => Some(80)
      case _ => None)
    case 'r' => (match name
      case "round" => Some(49)
      case "recip" => Some(53)
      case _ => None)
    case _ => None
  }

  ghost function OpcodeOfLength6(name: string): Option<nat>
    requires |name| > 0
  {
    match name[0]
    case 's' => (match name
      case "sincos" => Some(79)
      case _ => None)
    case _ => None
  }

  ghost function OpcodeOfLength7(name: string): Option<nat>
    requires |name| > 0
  {
    match name[0]
    case 'c' => (match name
      case "convi2u" => Some(32)
      case "convu2i" => Some(33)
      case "convf2u" => Some(34)
      case "convu2f" => Some(35)
      case "convf2i" => Some(36)
      case "convi2f" => Some(37)
      case _ => None)
    case _ => None
  }

  ghost function OpcodeOfLength10(name: string): Option<nat>
    requires |name| > 0
  {
    match name[0]
    case 'r' => (match name
      case "read_stdin" => Some(102)
      case _ => None)
    case _ => None
  }

  ghost function OpcodeOfLength12(name: string): Option<nat>
    requires |name| > 0
  {
    match name[0]
    case 'f' => (match name
      case "flush_stdout" => Some(101)
      case _ => None)
    case 'w' => (match name
      case "write_stdout" => Some(100)
      case _ => None)
    case _ => None
  }

  lemma OpcodeOfNameChunk0(op: nat)
    requires 0 <= op < 3
    ensures OpcodeOf(Name(op)) == Some(op)
  {
  }
  lemma OpcodeOfNameChunk1(op: nat)
    requires 3 <= op < 6
    ensures OpcodeOf(Name(op)) == Some(op)
  {
  }
  lemma OpcodeOfNameChunk2(op: nat)
    requires 6 <= op < 9
    ensures OpcodeOf(Name(op)) == Some(op)
  {
  }
  lemma OpcodeOfNameChunk3(op: nat)
    requires 9 <= op < 12
    ensures OpcodeOf(Name(op)) == Some(op)
  {
  }
  lemma OpcodeOfNameChunk4(op: nat)
    requires 12 <= op < 15
    ensures OpcodeOf(Name(op)) == Some(op)
  {
  }
  lemma OpcodeOfNameChunk5(op: nat)
    requires 15 <= op < 18
    ensures OpcodeOf(Name(op)) == Some(op)
  {
  }
  lemma OpcodeOfNameChunk6(op: nat)
    requires 18 <= op < 21
    ensures OpcodeOf(Name(op)) == Some(op)
  {
  }
  lemma OpcodeOfNameChunk7(op: nat)
    requires 21 <= op < 24
    ensures OpcodeOf(Name(op)) == Some(op)
  {
  }
  lemma OpcodeOfNameChunk8(op: nat)
    requires 24 <= op < 27
    ensures OpcodeOf(Name(op)) == Some(op)
  {
  }
  lemma OpcodeOfNameChunk9(op: nat)
    requires 27 <= op < 30
    ensures OpcodeOf(Name(op)) == Some(op)
  {
  }
  lemma OpcodeOfNameChunk10(op: nat)
    requires 30 <= op < 33
    ensures OpcodeOf(Name(op)) == Some(op)
  {
  }
  lemma OpcodeOfNameChunk11(op: nat)
    requires 33 <= op < 36
    ensures OpcodeOf(Name(op)) == Some(op)
  {
  }
  lemma OpcodeOfNameChunk12(op: nat)
    requires 36 <= op < 39
    ensures OpcodeOf(Name(op)) == Some(op)
  {
  }
  lemma OpcodeOfNameChunk13(op: nat)
    requires 39 <= op < 42
    ensures OpcodeOf(Name(op)) == Some(op)
  {
  }
  lemma OpcodeOfNameChunk14(op: nat)
    requires 42 <= op < 45
    ensures OpcodeOf(Name(op)) == Some(op)
  {
  }
  lemma OpcodeOfNameChunk15(op: nat)
    requires 45 <= op < 48
    ensures OpcodeOf(Name(op)) == Some(op)
  {
  }
  lemma OpcodeOfNameChunk16(op: nat)
    requires 48 <= op < 51
    ensures OpcodeOf(Name(op)) == Some(op)
  {
  }
  lemma OpcodeOfNameChunk17(op: nat)
    requires 51 <= op < 54
    ensures OpcodeOf(Name(op)) == Some(op)
  {
  }
  lemma OpcodeOfNameChunk18(op: nat)
    requires 54 <= op < 57
    ensures OpcodeOf(Name(op)) == Some(op)
  {
  }
  lemma OpcodeOfNameChunk19(op: nat)
    requires 57 <= op < 60
    ensures OpcodeOf(Name(op)) == Some(op)
  {
  }
  lemma OpcodeOfNameChunk20(op: nat)
    requires 60 <= op < 63
    ensures OpcodeOf(Name(op)) == Some(op)
  {
  }
  lemma OpcodeOfNameChunk21(op: nat)
    requires 63 <= op < 66
    ensures OpcodeOf(Name(op)) == Some(op)
  {
  }
  lemma OpcodeOfNameChunk22(op: nat)
    requires 66 <= op < 69
    ensures OpcodeOf(Name(op)) == Some(op)
  {
  }
  lemma OpcodeOfNameChunk23(op: nat)
    requires 69 <= op < 72
    ensures OpcodeOf(Name(op)) == Some(op)
  {
  }
  lemma OpcodeOfNameChunk24(op: nat)
    requires 72 <= op < 75
    ensures OpcodeOf(Name(op)) == Some(op)
  {
  }
  lemma OpcodeOfNameChunk25(op: nat)
    requires 75 <= op < 78
    ensures OpcodeOf(Name(op)) == Some(op)
  {
  }
  lemma OpcodeOfNameChunk26(op: nat)
    requires 78 <= op < 81
    ensures OpcodeOf(Name(op)) == Some(op)
  {
  }
  lemma OpcodeOfNameChunk27(op: nat)
    requires 81 <= op < 84
    ensures OpcodeOf(Name(op)) == Some(op)
  {
  }
  lemma OpcodeOfNameChunk28(op: nat)
    requires 84 <= op < 87
    ensures OpcodeOf(Name(op)) == Some(op)
  {
  }
  lemma OpcodeOfNameChunk29(op: nat)
    requires 87 <= op < 90
    ensures OpcodeOf(Name(op)) == Some(op)
  {
  }
  lemma OpcodeOfNameChunk30(op: nat)
    requires 90 <= op < 93
    ensures OpcodeOf(Name(op)) == Some(op)
  {
  }
  lemma OpcodeOfNameChunk31(op: nat)
    requires 93 <= op < 96
    ensures OpcodeOf(Name(op)) == Some(op)
  {
  }
  lemma OpcodeOfNameChunk32(op: nat)
    requires 96 <= op < 99
    ensures OpcodeOf(Name(op)) == Some(op)
  {
  }
  lemma OpcodeOfNameChunk33(op: nat)
    requires 99 <= op < 102
    ensures OpcodeOf(Name(op)) == Some(op)
  {
  }
  lemma OpcodeOfNameChunk34(op: nat)
    requires 102 <= op < 105
    ensures OpcodeOf(Name(op)) == Some(op)
  {
  }
  lemma OpcodeOfNameChunk35(op: nat)
    requires 105 <= op < 108
    ensures OpcodeOf(Name(op)) == Some(op)
  {
  }
  /// Looking up the mnemonic of any declared opcode gives the opcode back.
  lemma OpcodeOfName(op: nat)
    requires op < COUNT
    ensures OpcodeOf(Name(op)) == Some(op)
  {
    if op < 3 {
      OpcodeOfNameChunk0(op);
    } else if op < 6 {
      OpcodeOfNameChunk1(op);
    } else if op < 9 {
      OpcodeOfNameChunk2(op);
    } else if op < 12 {
      OpcodeOfNameChunk3(op);
    } else if op < 15 {
      OpcodeOfNameChunk4(op);
    } else if op < 18 {
      OpcodeOfNameChunk5(op);
    } else if op < 21 {
      OpcodeOfNameChunk6(op);
    } else if op < 24 {
      OpcodeOfNameChunk7(op);
    } else if op < 27 {
      OpcodeOfNameChunk8(op);
    } else if op < 30 {
      OpcodeOfNameChunk9(op);
    } else if op < 33 {
      OpcodeOfNameChunk10(op);
    } else if op < 36 {
      OpcodeOfNameChunk11(op);
    } else if op < 39 {
      OpcodeOfNameChunk12(op);
    } else if op < 42 {
      OpcodeOfNameChunk13(op);
    } else if op < 45 {
      OpcodeOfNameChunk14(op);
    } else if op < 48 {
      OpcodeOfNameChunk15(op);
    } else if op < 51 {
      OpcodeOfNameChunk16(op);
    } else if op < 54 {
      OpcodeOfNameChunk17(op);
    } else if op < 57 {
      OpcodeOfNameChunk18(op);
    } else if op < 60 {
      OpcodeOfNameChunk19(op);
    } else if op < 63 {
      OpcodeOfNameChunk20(op);
    } else if op < 66 {
      OpcodeOfNameChunk21(op);
    } else if op < 69 {
      OpcodeOfNameChunk22(op);
    } else if op < 72 {
      OpcodeOfNameChunk23(op);
    } else if op < 75 {
      OpcodeOfNameChunk24(op);
    } else if op < 78 {
      OpcodeOfNameChunk25(op);
    } else if op < 81 {
      OpcodeOfNameChunk26(op);
    } else if op < 84 {
      OpcodeOfNameChunk27(op);
    } else if op < 87 {
      OpcodeOfNameChunk28(op);
    } else if op < 90 {
      OpcodeOfNameChunk29(op);
    } else if op < 93 {
      OpcodeOfNameChunk30(op);
    } else if op < 96 {
      OpcodeOfNameChunk31(op);
    } else if op < 99 {
      OpcodeOfNameChunk32(op);
    } else if op < 102 {
      OpcodeOfNameChunk33(op);
    } else if op < 105 {
      OpcodeOfNameChunk34(op);
    } else {
      OpcodeOfNameChunk35(op);
    }
  }

  /// No two opcodes share a mnemonic.
  lemma NameInjective(i: nat, j: nat)
    requires i < COUNT && j < COUNT && Name(i) == Name(j)
    ensures i == j
  {
    OpcodeOfName(i);
    OpcodeOfName(j);
  }

  /// `instr_name_id_map`: inserts every (mnemonic, opcode) pair in declaration order.
  method NameIdMap() returns (m: map<string, nat>)
    ensures forall op :: 0 <= op < COUNT ==> Name(op) in m && m[Name(op)] == op
    ensures forall name :: name in m ==> m[name] < COUNT && Name(m[name]) == name
  {
    m := map[];
    var op := 0;
    while op < COUNT
      invariant 0 <= op <= COUNT
      invariant forall k :: 0 <= k < op ==> Name(k) in m && m[Name(k)] == k
      invariant forall name :: name in m ==> m[name] < op && Name(m[name]) == name
    {
      ghost var before := m;
      var name := Name(op);
      m := m[name := op];
      forall k | 0 <= k <= op
        ensures Name(k) in m && m[Name(k)] == k
      {
        if k < op {
          if Name(k) == name {
            NameInjective(k, op);
          }
          assert m[Name(k)] == before[Name(k)];
        }
      }
      op := op + 1;
    }
  }

  /// `instr_id_name_map`: inserts every (opcode, mnemonic) pair in declaration order.
  method IdNameMap() returns (m: map<nat, string>)
    ensures forall op: nat :: op in m <==> op < COUNT
    ensures forall op :: op in m ==> m[op] == Name(op)
  {
    m := map[];
    var op := 0;
    while op < COUNT
      invariant 0 <= op <= COUNT
      invariant forall k: nat :: k in m <==> k < op
      invariant forall k :: k in m ==> m[k] == Name(k)
    {
      m := m[op := Name(op)];
      op := op + 1;
    }
  }
}
