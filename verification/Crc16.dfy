module Crc16 {
  import opened Words

  const POLYNOMIAL: u16 := 0x1021
  const SEED: u16 := 0xFFFF

  /** One shift of the register, as the inner loop does it. */
  function Step(r: u16): u16 {
    if r & 0x8000 != 0 then (r << 1) ^ POLYNOMIAL else r << 1
  }

  function Steps(r: u16, n: nat): u16 {
    if n == 0 then r else Step(Steps(r, n - 1))
  }

  /** A data byte enters at the top of the register. */
  function Load(r: u16, b: byte): u16 {
    r ^ ((b as u16) << 8)
  }

  function Run(r: u16, data: seq<byte>): u16 {
    if data == [] then r
    else Steps(Load(Run(r, data[..|data| - 1]), data[|data| - 1]), 8)
  }

  function Crc(data: seq<byte>): u16 {
    Run(SEED, data)
  }

  method Compute(data: array?<byte>, from: nat, len: nat) returns (crc: u16)
    requires data != null ==> from + len <= data.Length
    ensures crc == if data == null then SEED else Crc(data[from..from + len])
  {
    crc := SEED;
    if data == null {
      return;
    }
    assert data[from..from] == [];
    for i := 0 to len
      invariant crc == Crc(data[from..from + i])
    {
      ghost var loaded := Load(crc, data[from + i]);
      crc := crc ^ ((data[from + i] as u16) << 8);
      for bit := 0 to 8
        invariant crc == Steps(loaded, bit)
      {
        if crc & 0x8000 != 0 {
          crc := (crc << 1) ^ POLYNOMIAL;
        } else {
          crc := crc << 1;
        }
      }
      assert data[from..from + i + 1][..i] == data[from..from + i];
    }
  }
}
