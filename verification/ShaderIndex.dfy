/** The registry of guest shader images and the two indexes into it. */
module ShaderIndex {
  import opened Words

  datatype RegisteredShader = RegisteredShader(
    codeAddress: u64, programAddress: u64, headerAddress: u64, programOffset: u64,
    codeSize: u32, binaryType: byte, hasProgramBinding: bool,
    userDataAddress: u64, inputSemanticsAddress: u64, inputSemanticsCount: u32)

  datatype Index = Index(records: map<u64, RegisteredShader>, programs: map<u64, u64>)

  datatype Stage = Pixel | Geometry | Export | Hull | Local | Compute

  datatype Binding = Binding(
    stage: Stage, registered: bool, programAddress: u64, codeAddress: u64,
    headerAddress: u64, codeOffset: u64, codeSize: u32, binaryType: byte)

  function Unresolved(stage: Stage, program: u64): Binding {
    Binding(stage, false, program, 0, 0, 0, 0, 0)
  }

  /** The record a program address leads to, after the cross-checks of the lookup. */
  function LookupProgram(index: Index, program: u64): Option<RegisteredShader> {
    if program !in index.programs then None
    else if index.programs[program] !in index.records then None
    else
      var record := index.records[index.programs[program]];
      if record.hasProgramBinding && record.programAddress == program then Some(record) else None
  }

  function Resolve(index: Index, b: Binding): Binding {
    var blank := Unresolved(b.stage, b.programAddress);
    if b.programAddress == 0 then blank
    else
      match LookupProgram(index, b.programAddress)
      case None => blank
      case Some(record) =>
        Binding(b.stage, true, b.programAddress, record.codeAddress, record.headerAddress,
                record.programOffset, record.codeSize, record.binaryType)
  }

  function ResolveAll(index: Index, bindings: seq<Binding>): (r: seq<Binding>)
    ensures |r| == |bindings|
    ensures forall i :: 0 <= i < |r| ==> r[i] == Resolve(index, bindings[i])
  {
    seq(|bindings|, i requires 0 <= i < |bindings| => Resolve(index, bindings[i]))
  }

  /** Bits 8..47 of a program address, as two shader registers hold them. */
  function ProgramAddress(lo: u32, hi: u32): (r: u64)
    ensures r % 0x100 == 0 && r < 0x1_0000_0000_0000
  {
    lo * 0x100 as int + hi % 0x100 * 0x100_0000_0000
  }
}
