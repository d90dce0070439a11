/** The guest pixel formats the image code knows. */
module Formats {
  import opened Words

  const BYTES_1: set<u32> := {1, 5, 128, 161}
  const BYTES_2: set<u32> := {7, 8, 11, 12, 13, 14, 15, 18, 19, 129, 133, 134, 136}
  const BYTES_4: set<u32> := {20, 21, 22, 23, 24, 27, 28, 29, 36, 50, 54, 56, 57, 60, 61, 130, 132}
  const BYTES_8: set<u32> := {62, 63, 64, 65, 66, 69, 70, 71}
  const BYTES_12: set<u32> := {72, 73, 74}
  const BYTES_16: set<u32> := {75, 76, 77}
  const BLOCK_8: set<u32> := {169, 170, 175, 176}
  const BLOCK_16: set<u32> := {171, 172, 173, 174, 177, 178, 179, 180, 181, 182}
  const NOT_SAMPLED: set<u32> := {2, 12, 19, 21, 28, 61, 63, 70, 73, 76}

  function NumBytesPerElement(format: u32): (r: u32)
    ensures r in {0, 1, 2, 4, 8, 12, 16}
  {
    if format in BYTES_1 then 1
    else if format in BYTES_2 then 2
    else if format in BYTES_4 then 4
    else if format in BYTES_8 then 8
    else if format in BYTES_12 then 12
    else if format in BYTES_16 then 16
    else 0
  }

  function BlockBytes(format: u32): (r: u32)
    ensures r in {0, 8, 16}
  {
    if format in BLOCK_8 then 8 else if format in BLOCK_16 then 16 else 0
  }

  predicate Known(format: u32) { format == 2 || NumBytesPerElement(format) != 0 || BlockBytes(format) != 0 }

  predicate Sampled(format: u32) { Known(format) && format !in NOT_SAMPLED }

  /** The format whose storage an sRGB view shares; zero for an unknown format. */
  function StorageAlias(format: u32): u32 {
    match format
    case 128 => 1
    case 129 => 14
    case 130 => 56
    case 170 => 169
    case 172 => 171
    case 174 => 173
    case 182 => 181
    case _ => if Known(format) then format else 0
  }
}
