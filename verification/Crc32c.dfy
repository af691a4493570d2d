/**
  CRC-32C (Castagnoli, reflected polynomial 0x82F63B78), the software form of
  src/fs/crc32c.c.  Nothing proved about the volume depends on more than it
  being a function of the bytes.
 */
module Checksums {
  import opened Bytes

  function CrcBit(crc: bv32): bv32
  {
    if crc & 1 == 1 then (crc >> 1) ^ 0x82F63B78 else crc >> 1
  }

  function CrcBits(crc: bv32, bits: nat): bv32
    decreases bits
  {
    if bits == 0 then crc else CrcBits(CrcBit(crc), bits - 1)
  }

  function CrcBytes(crc: bv32, data: seq<u8>): bv32
    decreases |data|
  {
    if data == [] then crc else CrcBytes(CrcBits(crc ^ (data[0] as bv32), 8), data[1..])
  }

  function Crc32c(data: seq<u8>): u32
  {
    (CrcBytes(0xFFFFFFFF, data) ^ 0xFFFFFFFF) as int
  }
}
