/** The growable byte buffer of an ELF section. */
module ElfSection {
  newtype byte = x: int | 0 <= x < 256

  /** One past the largest `Elf_Word`. */
  const WORD_LIMIT: nat := 0x1_0000_0000
  const SHT_NOBITS: nat := 8

  /** The capacity `append_data` goes to; the product is 32 bits wide. */
  function NewCapacity(dataSize: nat, n: nat): nat {
    2 * (dataSize + n) % WORD_LIMIT
  }

  lemma CapacityBounds(dataSize: nat, n: nat)
    ensures NewCapacity(dataSize, n) < WORD_LIMIT && NewCapacity(dataSize, n) <= 2 * (dataSize + n)
  {
  }

  /** `n` more bytes fit, as the buffer is or as it would be grown. */
  predicate HasRoom(size: nat, dataSize: nat, n: nat) {
    size + n < dataSize || size + n <= NewCapacity(dataSize, n)
  }

  /** Below a quarter of the 32-bit range they always do. */
  lemma RoomBelowLimit(size: nat, dataSize: nat, n: nat)
    requires 4 * (size + n) < WORD_LIMIT && size <= dataSize
    ensures HasRoom(size, dataSize, n)
  {
    if size + n >= dataSize {
      assert 2 * (dataSize + n) < WORD_LIMIT;
    }
  }

  /** Where the product wraps they need not. */
  lemma NoRoomWhenWrapped()
    ensures !HasRoom(0x8000_0000, 0x8000_0000, 1)
  {
  }

  class Section {
    const sectionType: nat
    var size: nat
    var dataSize: nat
    var data: array?<byte>

    /** The buffer is never more than four times as large as what it holds. */
    ghost predicate Valid()
      reads this
    {
      && size <= dataSize < WORD_LIMIT && dataSize <= 4 * size
      && if data == null then dataSize == 0 else data.Length == dataSize
    }

    ghost function Contents(): seq<byte>
      reads this, data
      requires Valid()
    {
      if data == null then [] else data[..size]
    }

    constructor (sectionType: nat)
      ensures Valid() && this.sectionType == sectionType && Contents() == [] && data == null
    {
      this.sectionType := sectionType;
      size, dataSize, data := 0, 0, null;
    }

    /** Appends, growing the buffer when it would be filled. */
    method AppendData(raw: seq<byte>)
      requires Valid() && |raw| < WORD_LIMIT
      requires sectionType != SHT_NOBITS ==> HasRoom(size, dataSize, |raw|)
      modifies this, data
      ensures Valid() && (data == old(data) || fresh(data))
      ensures Contents() == if sectionType == SHT_NOBITS then old(Contents()) else old(Contents()) + raw
    {
      if sectionType == SHT_NOBITS { return; }
      if size + |raw| < dataSize {
        Fill(raw);
      } else {
        Grow(raw);
      }
    }

    /** Into the room there is. */
    method Fill(raw: seq<byte>)
      requires Valid() && size + |raw| < dataSize
      modifies this`size, data
      ensures Valid() && Contents() == old(Contents()) + raw && size == old(size) + |raw|
    {
      var n := size;
      forall i | 0 <= i < |raw| {
        data[n + i] := raw[i];
      }
      size := size + |raw|;
      assert data[..size] == data[..n] + data[n..size];
      assert data[..n] == old(data[..size]) && data[n..size] == raw;
    }

    /** Into a larger buffer. */
    method Grow(raw: seq<byte>)
      requires Valid() && size + |raw| >= dataSize && size + |raw| <= NewCapacity(dataSize, |raw|)
      modifies this
      ensures Valid() && fresh(data) && Contents() == old(Contents()) + raw && size == old(size) + |raw|
      ensures dataSize == NewCapacity(old(dataSize), |raw|)
    {
      CapacityBounds(dataSize, |raw|);
      hide NewCapacity;
      var n := size;
      dataSize := NewCapacity(dataSize, |raw|);
      var newData := new byte[dataSize];
      var before := data;
      if data != null {
        forall i | 0 <= i < n {
          newData[i] := before[i];
        }
      }
      assert newData[..n] == old(Contents());
      forall i | 0 <= i < |raw| {
        newData[n + i] := raw[i];
      }
      data := newData;
      size := size + |raw|;
      assert data[..size] == data[..n] + data[n..size];
      assert data[..n] == old(Contents()) && data[n..size] == raw;
    }
  }
}
