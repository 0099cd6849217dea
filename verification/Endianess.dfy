/** Little-endian loads and stores on byte arrays. */
module Endianess {
  import opened Words

  method PutU16Le(destination: array?<byte>, value: u16) returns (count: int)
    requires destination != null ==> destination.Length >= 2
    modifies destination
    ensures count == if destination == null then -1 else 2
    ensures destination != null ==> destination[..] == Le16(value) + old(destination[2..])
  {
    if destination == null {
      return -1;
    }
    destination[0] := (value & 0xFF) as byte;
    destination[1] := ((value >> 8) & 0xFF) as byte;
    HighMasked(value);
    return 2;
  }

  lemma HighMasked(value: u16)
    ensures ((value >> 8) & 0xFF) as byte == High(value)
  {
  }

  method PutU32Le(destination: array?<byte>, value: u32) returns (count: int)
    requires destination != null ==> destination.Length >= 4
    modifies destination
    ensures count == if destination == null then -1 else 4
    ensures destination != null ==> destination[..] == Le32(value) + old(destination[4..])
  {
    if destination == null {
      return -1;
    }
    destination[0] := (value & 0xFF) as byte;
    destination[1] := ((value >> 8) & 0xFF) as byte;
    destination[2] := ((value >> 16) & 0xFF) as byte;
    destination[3] := ((value >> 24) & 0xFF) as byte;
    return 4;
  }

  method GetU16Le(source: array?<byte>, value: Cell?<u16>) returns (count: int)
    requires source != null ==> source.Length >= 2
    modifies value
    ensures count == if source == null || value == null then -1 else 2
    ensures source != null && value != null ==> value.value == FromLe16(source[0], source[1])
    ensures source == null && value != null ==> value.value == old(value.value)
  {
    if source == null || value == null {
      return -1;
    }
    value.value := (source[0] as u16) | ((source[1] as u16) << 8);
    return 2;
  }

  method GetU32Le(source: array?<byte>, value: Cell?<u32>) returns (count: int)
    requires source != null ==> source.Length >= 4
    modifies value
    ensures count == if source == null || value == null then -1 else 4
    ensures source != null && value != null ==>
              value.value == FromLe32(source[0], source[1], source[2], source[3])
    ensures source == null && value != null ==> value.value == old(value.value)
  {
    if source == null || value == null {
      return -1;
    }
    value.value := (source[0] as u32) | ((source[1] as u32) << 8) | ((source[2] as u32) << 16) | ((source[3] as u32) << 24);
    return 4;
  }
}
