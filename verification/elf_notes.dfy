/** ELF note sections: what is added as a note is found again by scanning. */
module ElfNotes {
  import opened Wrappers
  import opened ElfSection

  // ---------- Words ----------

  /** The four bytes of a word in memory, lowest first. */
  function WordBytes(v: nat): (bytes: seq<byte>)
    requires v < WORD_LIMIT
    ensures |bytes| == 4
  {
    [(v % 256) as byte, (v / 256 % 256) as byte, (v / 65536 % 256) as byte, (v / 16777216) as byte]
  }

  function WordOf(b: seq<byte>): (v: nat)
    requires |b| == 4
    ensures v < WORD_LIMIT
  {
    b[0] as nat + 256 * b[1] as nat + 65536 * b[2] as nat + 16777216 * b[3] as nat
  }

  lemma WordRoundTrip(v: nat)
    requires v < WORD_LIMIT
    ensures WordOf(WordBytes(v)) == v
  {
    assert v == v % 256 + 256 * (v / 256);
    assert v / 256 == v / 256 % 256 + 256 * (v / 65536);
    assert v / 65536 == v / 65536 % 256 + 256 * (v / 16777216);
  }

  lemma LowByte(b: nat, q: nat)
    requires b < 256
    ensures (b + 256 * q) % 256 == b && (b + 256 * q) / 256 == q
  {
  }

  lemma BytesRoundTrip(b: seq<byte>)
    requires |b| == 4
    ensures WordBytes(WordOf(b)) == b
  {
    var v, q, p := WordOf(b), b[1] as nat + 256 * b[2] as nat + 65536 * b[3] as nat, b[2] as nat + 256 * b[3] as nat;
    LowByte(b[0] as nat, q);
    LowByte(b[1] as nat, p);
    LowByte(b[2] as nat, b[3] as nat);
    assert v / 256 == q && v / 65536 == q / 256 == p && v / 16777216 == p / 256;
  }

  /** The convertor: the bytes are exchanged when the file has the other order. */
  function Convert(swap: bool, v: nat): (w: nat)
    requires v < WORD_LIMIT
    ensures w < WORD_LIMIT
  {
    if swap then
      var b := WordBytes(v);
      WordOf([b[3], b[2], b[1], b[0]])
    else v
  }

  lemma ConvertTwice(swap: bool, v: nat)
    requires v < WORD_LIMIT
    ensures Convert(swap, Convert(swap, v)) == v
  {
    if swap {
      var b := WordBytes(v);
      BytesRoundTrip([b[3], b[2], b[1], b[0]]);
      WordRoundTrip(v);
      assert [b[0], b[1], b[2], b[3]] == b;
    }
  }

  /** The bytes of a word in the file, and the word read back. */
  function Stored(swap: bool, v: nat): (bytes: seq<byte>)
    requires v < WORD_LIMIT
    ensures |bytes| == 4
  {
    WordBytes(Convert(swap, v))
  }

  function Loaded(swap: bool, b: seq<byte>): (v: nat)
    requires |b| == 4
    ensures v < WORD_LIMIT
  {
    Convert(swap, WordOf(b))
  }

  lemma LoadedStored(swap: bool, v: nat)
    requires v < WORD_LIMIT
    ensures Loaded(swap, Stored(swap, v)) == v
  {
    WordRoundTrip(Convert(swap, v));
    ConvertTwice(swap, v);
  }

  /** The bytes in the file are the digits of the word to base 256, lowest first, or highest
      first when the file has the other order. */
  lemma StoredIs(swap: bool, v: nat)
    requires v < WORD_LIMIT
    ensures var b := Stored(swap, v);
            if swap then v == b[3] as nat + 256 * b[2] as nat + 65536 * b[1] as nat + 16777216 * b[0] as nat
            else v == b[0] as nat + 256 * b[1] as nat + 65536 * b[2] as nat + 16777216 * b[3] as nat
  {
    WordRoundTrip(v);
    if swap {
      var b := WordBytes(v);
      BytesRoundTrip([b[3], b[2], b[1], b[0]]);
    }
  }

  // ---------- Notes ----------

  type word = v: nat | v < WORD_LIMIT

  datatype Note = Note(kind: word, name: seq<byte>, desc: seq<byte>)

  /** A length rounded up to a multiple of four, in 32 bits. */
  function Aligned(x: nat): nat {
    (x + 3) % WORD_LIMIT / 4 * 4
  }

  function Padding(x: nat): (pad: seq<byte>)
    ensures x + 3 < WORD_LIMIT ==> x + |pad| == Aligned(x)
  {
    if x % 4 == 0 then [] else [0, 0, 0][..4 - x % 4]
  }

  /** What `add_note` appends; words are cut to 32 bits. The descriptor may be a null
      pointer. */
  function Entry(swap: bool, kind: nat, name: seq<byte>, desc: Option<seq<byte>>, descSize: nat): seq<byte> {
    Stored(swap, (|name| + 1) % WORD_LIMIT) + Stored(swap, descSize % WORD_LIMIT) + Stored(swap, kind % WORD_LIMIT)
    + name + [0] + Padding(|name| + 1)
    + if desc.Some? && descSize != 0 then desc.value + Padding(descSize) else []
  }

  /** Zeros up to the next multiple of four, and no further. */
  lemma PaddingIs(x: nat)
    ensures (x + |Padding(x)|) % 4 == 0 && |Padding(x)| < 4 && forall i :: 0 <= i < |Padding(x)| ==> Padding(x)[i] == 0
    ensures x + 3 < WORD_LIMIT ==> Aligned(x) % 4 == 0 && x <= Aligned(x) < x + 4
  {
  }

  /** A note named "AB", in either byte order; what is announced but not given is not
      written. */
  lemma EntryBytes()
    ensures Entry(false, 5, [65, 66], Some([7]), 1) == [3, 0, 0, 0, 1, 0, 0, 0, 5, 0, 0, 0, 65, 66, 0, 0, 7, 0, 0, 0]
    ensures Entry(true, 5, [65, 66], Some([7]), 1) == [0, 0, 0, 3, 0, 0, 0, 1, 0, 0, 0, 5, 65, 66, 0, 0, 7, 0, 0, 0]
    ensures Entry(false, 5, [65, 66], None, 1) == [3, 0, 0, 0, 1, 0, 0, 0, 5, 0, 0, 0, 65, 66, 0, 0]
  {
    SmallEntry(false);
    SmallEntry(true);
    hide *;
  }

  lemma SmallEntry(swap: bool)
    ensures var head := if swap then [0, 0, 0, 3, 0, 0, 0, 1, 0, 0, 0, 5] else [3, 0, 0, 0, 1, 0, 0, 0, 5, 0, 0, 0];
            && Entry(swap, 5, [65, 66], Some([7]), 1) == head + [65, 66, 0, 0, 7, 0, 0, 0]
            && Entry(swap, 5, [65, 66], None, 1) == head + [65, 66, 0, 0]
  {
    hide WordBytes;
    SmallHead(swap);
    assert Padding(3) == [0] && Padding(1) == [0, 0, 0];
    hide Stored, Padding;
    var head := Stored(swap, 3) + Stored(swap, 1) + Stored(swap, 5);
    assert head + [65, 66] + [0] + [0] == head + [65, 66, 0, 0];
    assert head + [65, 66, 0, 0] + ([7] + [0, 0, 0]) == head + [65, 66, 0, 0, 7, 0, 0, 0];
  }

  lemma SmallHead(swap: bool)
    ensures Stored(swap, 3) + Stored(swap, 1) + Stored(swap, 5)
            == if swap then [0, 0, 0, 3, 0, 0, 0, 1, 0, 0, 0, 5] else [3, 0, 0, 0, 1, 0, 0, 0, 5, 0, 0, 0]
  {
    hide Stored;
    StoredSmall(3);
    StoredSmall(1);
    StoredSmall(5);
  }

  lemma StoredSmall(v: nat)
    requires v < 256
    ensures Stored(false, v) == [v as byte, 0, 0, 0] && Stored(true, v) == [0, 0, 0, v as byte]
  {
    StoredIs(true, v);
  }

  /** Every length is within 32 bits, rounded up as well. */
  predicate NoteOk(n: Note) {
    |n.name| + 4 < WORD_LIMIT && |n.desc| + 3 < WORD_LIMIT
  }

  predicate NotesOk(notes: seq<Note>) {
    forall i :: 0 <= i < |notes| ==> NoteOk(notes[i])
  }

  function EntryOf(swap: bool, n: Note): (e: seq<byte>) {
    Entry(swap, n.kind, n.name, Some(n.desc), |n.desc|)
  }

  lemma EntrySize(swap: bool, n: Note)
    requires NoteOk(n)
    ensures |EntryOf(swap, n)| == 12 + Aligned(|n.name| + 1) + Aligned(|n.desc|)
  {
  }

  /** The contents of a section with the notes. */
  function Bytes(swap: bool, notes: seq<Note>): seq<byte> {
    if notes == [] then [] else EntryOf(swap, notes[0]) + Bytes(swap, notes[1..])
  }

  /** Where the notes start, the first at `at`. */
  function Starts(swap: bool, at: nat, notes: seq<Note>): (starts: seq<nat>)
    ensures |starts| == |notes|
    decreases notes
  {
    if notes == [] then [] else [at] + Starts(swap, at + |EntryOf(swap, notes[0])|, notes[1..])
  }

  // ---------- Scanning ----------

  function WordAt(swap: bool, data: seq<byte>, at: nat): (v: nat)
    requires at + 4 <= |data|
    ensures v < WORD_LIMIT
  {
    Loaded(swap, data[at..at + 4])
  }

  /** How far `process_section` goes on from a note. */
  function Step(swap: bool, data: seq<byte>, at: nat): nat
    requires at + 12 <= |data|
  {
    12 + Aligned(WordAt(swap, data, at)) + Aligned(WordAt(swap, data, at + 4))
  }

  function Scan(swap: bool, data: seq<byte>, at: nat): seq<nat>
    decreases |data| - at
  {
    if at + 12 <= |data| then [at] + Scan(swap, data, at + Step(swap, data, at)) else []
  }

  lemma ScanNext(swap: bool, data: seq<byte>, at: nat)
    requires at + 12 <= |data|
    ensures Scan(swap, data, at)
            == [at] + Scan(swap, data, at + 12 + Aligned(WordAt(swap, data, at)) + Aligned(WordAt(swap, data, at + 4)))
  {
    hide WordAt, Aligned;
  }

  lemma ScanEnds(swap: bool, data: seq<byte>, at: nat)
    requires at + 12 > |data|
    ensures Scan(swap, data, at) == []
  {
  }

  ghost predicate HasAt(data: seq<byte>, at: nat, e: seq<byte>) {
    at + |e| <= |data| && data[at..at + |e|] == e
  }

  lemma SliceOf(data: seq<byte>, at: nat, e: seq<byte>, i: nat, j: nat)
    requires HasAt(data, at, e) && i <= j <= |e|
    ensures data[at + i..at + j] == e[i..j]
  {
    forall k | 0 <= k < j - i ensures data[at + i..at + j][k] == e[i..j][k] {
      assert data[at..at + |e|][i + k] == data[at + i + k];
    }
  }

  lemma HasHere(pre: seq<byte>, e: seq<byte>, post: seq<byte>)
    ensures HasAt(pre + e + post, |pre|, e)
  {
  }

  lemma Between(a: seq<byte>, b: seq<byte>, c: seq<byte>)
    ensures (a + b + c)[|a|..|a| + |b|] == b
  {
  }

  lemma EntryHead(swap: bool, kind: nat, name: seq<byte>, desc: Option<seq<byte>>, descSize: nat)
    requires kind < WORD_LIMIT && |name| + 1 < WORD_LIMIT && descSize < WORD_LIMIT
    ensures var e := Entry(swap, kind, name, desc, descSize);
            && 12 <= |e| && e[0..4] == Stored(swap, |name| + 1)
            && e[4..8] == Stored(swap, descSize) && e[8..12] == Stored(swap, kind)
  {
    hide Stored, Padding;
    var e := Entry(swap, kind, name, desc, descSize);
    var a, b, c := Stored(swap, |name| + 1), Stored(swap, descSize), Stored(swap, kind);
    assert |a| == 4 && |b| == 4 && |c| == 4;
    var rest := name + [0] + Padding(|name| + 1) + if desc.Some? && descSize != 0 then desc.value + Padding(descSize) else [];
    assert e == [] + a + (b + c + rest) && e == a + b + (c + rest) && e == (a + b) + c + rest;
    Between([], a, b + c + rest);
    Between(a, b, c + rest);
    Between(a + b, c, rest);
  }

  /** The words of an entry are where they are read. */
  lemma EntryWords(swap: bool, data: seq<byte>, at: nat, kind: nat, name: seq<byte>, desc: Option<seq<byte>>, descSize: nat)
    requires kind < WORD_LIMIT && |name| + 1 < WORD_LIMIT && descSize < WORD_LIMIT
    requires HasAt(data, at, Entry(swap, kind, name, desc, descSize))
    ensures at + 12 <= |data|
    ensures WordAt(swap, data, at) == |name| + 1 && WordAt(swap, data, at + 4) == descSize && WordAt(swap, data, at + 8) == kind
  {
    hide Stored, Loaded, Padding;
    var e := Entry(swap, kind, name, desc, descSize);
    EntryHead(swap, kind, name, desc, descSize);
    SliceOf(data, at, e, 0, 4);
    SliceOf(data, at, e, 4, 8);
    SliceOf(data, at, e, 8, 12);
    LoadedStored(swap, |name| + 1);
    LoadedStored(swap, descSize);
    LoadedStored(swap, kind);
  }

  /** The scan goes from an entry to the next if and only if the descriptor that was
      announced is there. */
  lemma StepIff(swap: bool, data: seq<byte>, at: nat, kind: nat, name: seq<byte>, desc: Option<seq<byte>>, descSize: nat)
    requires kind < WORD_LIMIT && |name| + 4 < WORD_LIMIT && descSize + 3 < WORD_LIMIT
    requires desc.Some? ==> |desc.value| == descSize
    requires HasAt(data, at, Entry(swap, kind, name, desc, descSize))
    ensures at + 12 <= |data|
    ensures Step(swap, data, at) == |Entry(swap, kind, name, desc, descSize)| <==> desc.Some? || descSize == 0
  {
    hide Stored, WordAt;
    EntryWords(swap, data, at, kind, name, desc, descSize);
  }

  lemma StepOver(swap: bool, data: seq<byte>, at: nat, n: Note)
    requires NoteOk(n) && HasAt(data, at, EntryOf(swap, n))
    ensures at + 12 <= |data| && Step(swap, data, at) == |EntryOf(swap, n)|
  {
    StepIff(swap, data, at, n.kind, n.name, Some(n.desc), |n.desc|);
  }

  /** The first note and the rest. */
  lemma FirstNote(swap: bool, pre: seq<byte>, notes: seq<Note>)
    requires notes != []
    ensures pre + Bytes(swap, notes) == pre + EntryOf(swap, notes[0]) + Bytes(swap, notes[1..])
    ensures HasAt(pre + Bytes(swap, notes), |pre|, EntryOf(swap, notes[0]))
  {
    var e, rest := EntryOf(swap, notes[0]), Bytes(swap, notes[1..]);
    assert Bytes(swap, notes) == e + rest;
    hide *;
    Associates(pre, e, rest);
    HasHere(pre, e, rest);
  }

  lemma FirstStart(swap: bool, at: nat, notes: seq<Note>, next: nat)
    requires notes != [] && next == at + |EntryOf(swap, notes[0])|
    ensures Starts(swap, at, notes) == [at] + Starts(swap, next, notes[1..])
  {
    hide EntryOf;
  }

  lemma Associates(a: seq<byte>, b: seq<byte>, c: seq<byte>)
    ensures a + (b + c) == a + b + c
  {
  }

  /** Scanning a section with notes finds where each starts. */
  lemma {:induction false} ScanFinds(swap: bool, pre: seq<byte>, notes: seq<Note>)
    requires NotesOk(notes)
    ensures Scan(swap, pre + Bytes(swap, notes), |pre|) == Starts(swap, |pre|, notes)
    decreases notes
  {
    hide Aligned, WordAt, Entry;
    if notes != [] {
      assert NoteOk(notes[0]) && NotesOk(notes[1..]);
      hide EntryOf, Step, HasAt, Bytes, Starts, NotesOk, NoteOk;
      FirstNote(swap, pre, notes);
      FirstStart(swap, |pre|, notes, |pre + EntryOf(swap, notes[0])|);
      StepOver(swap, pre + Bytes(swap, notes), |pre|, notes[0]);
      ScanFinds(swap, pre + EntryOf(swap, notes[0]), notes[1..]);
    }
  }

  // ---------- Reading a note ----------

  /** `get_note` takes the note at `at` for damaged. */
  predicate Damaged(swap: bool, data: seq<byte>, at: nat)
    requires at + 12 <= |data|
  {
    var maxNameSize := (|data| - at) % WORD_LIMIT;
    var namesz, descsz := WordAt(swap, data, at), WordAt(swap, data, at + 4);
    namesz > maxNameSize || (namesz + descsz) % WORD_LIMIT > maxNameSize
  }

  /** Where lengths do not wrap around, that is so if and only if name and descriptor, were
      they to start at the note itself, would run past the end of the section. */
  lemma DamagedIff(swap: bool, data: seq<byte>, at: nat)
    requires at + 12 <= |data| < WORD_LIMIT && WordAt(swap, data, at) + WordAt(swap, data, at + 4) < WORD_LIMIT
    ensures Damaged(swap, data, at) <==> at + WordAt(swap, data, at) + WordAt(swap, data, at + 4) > |data|
  {
    hide WordAt;
    InRange(|data| - at);
    InRange(WordAt(swap, data, at) + WordAt(swap, data, at + 4));
  }

  /** Name and descriptor of the note at `at` lie within the section. */
  predicate Placed(swap: bool, data: seq<byte>, at: nat) {
    && at + 12 <= |data| && WordAt(swap, data, at) > 0
    && at + 12 + WordAt(swap, data, at) - 1 <= |data|
    && (WordAt(swap, data, at + 4) > 0 ==>
          at + 12 + Aligned(WordAt(swap, data, at)) + WordAt(swap, data, at + 4) <= |data|)
  }

  function NoteAt(swap: bool, data: seq<byte>, at: nat): Option<Note>
    requires at + 12 <= |data| && (!Damaged(swap, data, at) ==> Placed(swap, data, at))
  {
    if Damaged(swap, data, at) then None
    else
      var namesz, descsz := WordAt(swap, data, at), WordAt(swap, data, at + 4);
      var d := at + 12 + Aligned(namesz);
      Some(Note(WordAt(swap, data, at + 8), data[at + 12..at + 12 + namesz - 1], if descsz == 0 then [] else data[d..d + descsz]))
  }

  /** Name and descriptor in an entry. */
  lemma EntryName(swap: bool, n: Note)
    ensures var e := EntryOf(swap, n); 12 + |n.name| < |e| && e[12..12 + |n.name|] == n.name
  {
    hide Stored;
    var head := Stored(swap, (|n.name| + 1) % WORD_LIMIT) + Stored(swap, |n.desc| % WORD_LIMIT) + Stored(swap, n.kind % WORD_LIMIT);
    var rest := [0] + Padding(|n.name| + 1) + if |n.desc| != 0 then n.desc + Padding(|n.desc|) else [];
    assert |head| == 12 && |rest| > 0;
    assert EntryOf(swap, n) == head + n.name + rest;
    hide *;
    Between(head, n.name, rest);
  }

  lemma EntryDesc(swap: bool, n: Note)
    requires NoteOk(n)
    ensures var e, d := EntryOf(swap, n), 12 + Aligned(|n.name| + 1);
            d + |n.desc| <= |e| && e[d..d + |n.desc|] == n.desc
  {
    hide Stored;
    var head := Stored(swap, (|n.name| + 1) % WORD_LIMIT) + Stored(swap, |n.desc| % WORD_LIMIT) + Stored(swap, n.kind % WORD_LIMIT)
      + n.name + [0] + Padding(|n.name| + 1);
    var rest := if |n.desc| != 0 then Padding(|n.desc|) else [];
    assert |head| == 12 + Aligned(|n.name| + 1);
    assert EntryOf(swap, n) == head + n.desc + rest;
    hide *;
    Between(head, n.desc, rest);
  }

  lemma RoundsUp(x: nat)
    requires x + 3 < WORD_LIMIT
    ensures x <= Aligned(x)
  {
  }

  /** The words and parts of the note are where they are read. */
  ghost predicate LaidOut(swap: bool, data: seq<byte>, at: nat, n: Note) {
    && at + 12 + Aligned(|n.name| + 1) + Aligned(|n.desc|) <= |data|
    && WordAt(swap, data, at) == |n.name| + 1 && WordAt(swap, data, at + 4) == |n.desc| && WordAt(swap, data, at + 8) == n.kind
    && at + 12 + |n.name| <= |data| && data[at + 12..at + 12 + |n.name|] == n.name
    && var d := at + 12 + Aligned(|n.name| + 1);
       d + |n.desc| <= |data| && data[d..d + |n.desc|] == n.desc
  }

  lemma NotDamaged(swap: bool, data: seq<byte>, at: nat, n: Note)
    requires NoteOk(n) && |data| < WORD_LIMIT && LaidOut(swap, data, at, n)
    ensures !Damaged(swap, data, at)
  {
    RoundsUp(|n.name| + 1);
    RoundsUp(|n.desc|);
    hide WordAt, Aligned;
    InRange(|data| - at);
    InRange(|n.name| + 1 + |n.desc|);
  }

  lemma InRange(x: nat)
    requires x < WORD_LIMIT
    ensures x % WORD_LIMIT == x
  {
  }

  lemma NoteIs(swap: bool, data: seq<byte>, at: nat, n: Note)
    requires LaidOut(swap, data, at, n) && !Damaged(swap, data, at)
    ensures Placed(swap, data, at) && NoteAt(swap, data, at) == Some(n)
  {
    hide WordAt, Aligned, Damaged;
  }

  lemma EntryLaidOut(swap: bool, data: seq<byte>, at: nat, n: Note)
    requires NoteOk(n) && HasAt(data, at, EntryOf(swap, n))
    ensures LaidOut(swap, data, at, n)
  {
    hide Entry, Stored, Loaded, WordBytes, NoteAt;
    var e, d := EntryOf(swap, n), 12 + Aligned(|n.name| + 1);
    EntryWords(swap, data, at, n.kind, n.name, Some(n.desc), |n.desc|);
    EntryName(swap, n);
    EntryDesc(swap, n);
    EntrySize(swap, n);
    assert at + |e| <= |data|;
    hide EntryOf, WordAt, Aligned, HasAt, NoteOk;
    SliceOf(data, at, e, 12, 12 + |n.name|);
    SliceOf(data, at, e, d, d + |n.desc|);
  }

  lemma NoteFound(swap: bool, data: seq<byte>, at: nat, n: Note)
    requires NoteOk(n) && |data| < WORD_LIMIT && HasAt(data, at, EntryOf(swap, n))
    ensures FoundAt(swap, data, at, n)
  {
    EntryLaidOut(swap, data, at, n);
    hide WordAt, Aligned, EntryOf, HasAt, Damaged, NoteAt;
    NotDamaged(swap, data, at, n);
    NoteIs(swap, data, at, n);
  }

  ghost predicate FoundAt(swap: bool, data: seq<byte>, at: nat, n: Note) {
    && at + 12 <= |data| && !Damaged(swap, data, at) && Placed(swap, data, at)
    && NoteAt(swap, data, at) == Some(n)
  }

  /** In a section within 32 bits every note is. */
  lemma {:induction false} FittingNotesOk(swap: bool, notes: seq<Note>)
    requires |Bytes(swap, notes)| < WORD_LIMIT
    ensures NotesOk(notes)
  {
    if notes != [] {
      EntryAtLeast(swap, notes[0]);
      hide EntryOf;
      assert |Bytes(swap, notes)| == |EntryOf(swap, notes[0])| + |Bytes(swap, notes[1..])|;
      FittingNotesOk(swap, notes[1..]);
    }
  }

  lemma EntryAtLeast(swap: bool, n: Note)
    ensures |EntryOf(swap, n)| >= 13 + |n.name| + |n.desc|
  {
    hide Stored;
  }

  /** Every note can be read back where it starts. */
  lemma {:induction false} NotesFound(swap: bool, pre: seq<byte>, notes: seq<Note>, i: nat)
    requires |pre + Bytes(swap, notes)| < WORD_LIMIT && i < |notes|
    ensures FoundAt(swap, pre + Bytes(swap, notes), Starts(swap, |pre|, notes)[i], notes[i])
    decreases notes
  {
    hide EntryOf, Bytes, Starts, FoundAt;
    FittingNotesOk(swap, notes);
    FirstNote(swap, pre, notes);
    FirstStart(swap, |pre|, notes, |pre + EntryOf(swap, notes[0])|);
    if i == 0 {
      NoteFound(swap, pre + Bytes(swap, notes), |pre|, notes[0]);
    } else {
      NotesFound(swap, pre + EntryOf(swap, notes[0]), notes[1..], i - 1);
    }
  }

  /** The round trip: scanning what was added finds as many notes, and each one as it
      was added. */
  lemma RoundTrip(swap: bool, notes: seq<Note>)
    requires |Bytes(swap, notes)| < WORD_LIMIT
    ensures Scan(swap, Bytes(swap, notes), 0) == Starts(swap, 0, notes)
    ensures |Scan(swap, Bytes(swap, notes), 0)| == |notes|
    ensures forall i :: 0 <= i < |notes| ==>
              FoundAt(swap, Bytes(swap, notes), Scan(swap, Bytes(swap, notes), 0)[i], notes[i])
  {
    hide Bytes, Scan, FoundAt;
    assert [] + Bytes(swap, notes) == Bytes(swap, notes);
    FittingNotesOk(swap, notes);
    ScanFinds(swap, [], notes);
    forall i | 0 <= i < |notes|
      ensures FoundAt(swap, Bytes(swap, notes), Scan(swap, Bytes(swap, notes), 0)[i], notes[i])
    {
      NotesFound(swap, [], notes, i);
    }
  }

  /** Adding a note at the end. */
  lemma {:induction false} BytesAppend(swap: bool, notes: seq<Note>, n: Note)
    ensures Bytes(swap, notes + [n]) == Bytes(swap, notes) + EntryOf(swap, n)
  {
    hide EntryOf;
    if notes == [] {
      assert notes + [n] == [n];
      assert [n][1..] == [];
    } else {
      assert (notes + [n])[1..] == notes[1..] + [n];
      BytesAppend(swap, notes[1..], n);
      Associates(EntryOf(swap, notes[0]), Bytes(swap, notes[1..]), EntryOf(swap, n));
    }
  }

  lemma {:induction false} StartsAppend(swap: bool, notes: seq<Note>, n: Note, at: nat)
    ensures Starts(swap, at, notes + [n]) == Starts(swap, at, notes) + [at + |Bytes(swap, notes)|]
    decreases notes
  {
    hide EntryOf;
    if notes == [] {
      assert notes + [n] == [n];
      assert [n][1..] == [];
    } else {
      var e := |EntryOf(swap, notes[0])|;
      assert (notes + [n])[1..] == notes[1..] + [n];
      StartsAppend(swap, notes[1..], n, at + e);
      assert |Bytes(swap, notes)| == e + |Bytes(swap, notes[1..])|;
    }
  }

  /** The index is only compared with the size in bytes: exactly when there are notes the
      first index past them is not turned down. */
  lemma {:induction false} GuardTooWide(swap: bool, notes: seq<Note>)
    ensures |notes| < |Bytes(swap, notes)| <==> notes != []
  {
    if notes != [] {
      assert |EntryOf(swap, notes[0])| >= 13;
      GuardTooWide(swap, notes[1..]);
    }
  }

  // ---------- The accessor ----------

  class NoteAccessor {
    const swap: bool
    const noteSection: Section
    var noteStartPositions: seq<nat>

    /** Scans the section. */
    constructor (swap: bool, noteSection: Section)
      requires noteSection.Valid()
      ensures this.swap == swap && this.noteSection == noteSection
      ensures noteStartPositions == Scan(swap, noteSection.Contents(), 0)
    {
      this.swap, this.noteSection, noteStartPositions := swap, noteSection, [];
      new;
      ProcessSection();
    }

    method ProcessSection()
      requires noteSection.Valid()
      modifies this`noteStartPositions
      ensures noteStartPositions == Scan(swap, noteSection.Contents(), 0)
    {
      hide Scan, WordAt, Aligned;
      noteStartPositions := [];
      var current := 0;
      while current + 12 <= noteSection.size
        invariant Scan(swap, noteSection.Contents(), 0) == noteStartPositions + Scan(swap, noteSection.Contents(), current)
        decreases noteSection.size - current
      {
        ScanNext(swap, noteSection.Contents(), current);
        noteStartPositions := noteStartPositions + [current];
        var namesz := ReadWord(current);
        var descsz := ReadWord(current + 4);
        current := current + 12 + Aligned(namesz) + Aligned(descsz);
      }
      ScanEnds(swap, noteSection.Contents(), current);
    }

    method ReadBytes(first: nat, last: nat) returns (bytes: seq<byte>)
      requires noteSection.Valid() && first <= last <= noteSection.size
      ensures bytes == noteSection.Contents()[first..last]
    {
      if noteSection.data == null { return []; }
      bytes := noteSection.data[first..last];
    }

    method ReadWord(at: nat) returns (v: word)
      requires noteSection.Valid() && at + 4 <= noteSection.size
      ensures v == WordAt(swap, noteSection.Contents(), at)
    {
      var bytes := ReadBytes(at, at + 4);
      v := Loaded(swap, bytes);
    }

    /** The section holds exactly these notes, and it is known where. */
    ghost predicate Holds(notes: seq<Note>)
      requires noteSection.Valid()
      reads this, noteSection, noteSection.data
    {
      noteSection.Contents() == Bytes(swap, notes) && noteStartPositions == Starts(swap, 0, notes)
    }

    method BuildEntry(kind: nat, name: seq<byte>, desc: Option<seq<byte>>, descSize: nat) returns (buffer: seq<byte>)
      ensures buffer == Entry(swap, kind, name, desc, descSize)
    {
      buffer := Stored(swap, (|name| + 1) % WORD_LIMIT) + Stored(swap, descSize % WORD_LIMIT) + Stored(swap, kind % WORD_LIMIT);
      buffer := buffer + name + [0] + Padding(|name| + 1);
      if desc.Some? && descSize != 0 {
        buffer := buffer + (desc.value + Padding(descSize));
      }
    }

    /** Adds a note; a descriptor that is announced but null is not written, and nothing is
        in a section without data, though a start is remembered. */
    method AddNote(kind: nat, name: seq<byte>, desc: Option<seq<byte>>, descSize: nat)
      requires noteSection.Valid()
      requires kind < WORD_LIMIT && descSize < WORD_LIMIT && (desc.Some? ==> |desc.value| == descSize)
      requires var n := |Entry(swap, kind, name, desc, descSize)|;
               n < WORD_LIMIT && (noteSection.sectionType != SHT_NOBITS ==> HasRoom(noteSection.size, noteSection.dataSize, n))
      modifies this, noteSection, noteSection.data
      ensures noteSection.Valid()
      ensures noteSection.Contents() == old(noteSection.Contents()) +
                if noteSection.sectionType == SHT_NOBITS then [] else Entry(swap, kind, name, desc, descSize)
      ensures noteStartPositions == old(noteStartPositions) + [old(noteSection.size)]
      ensures forall notes {:trigger old(Holds(notes))} :: old(Holds(notes)) && (desc.Some? || descSize == 0) && noteSection.sectionType != SHT_NOBITS ==>
                Holds(notes + [Note(kind, name, if desc.Some? then desc.value else [])])
    {
      hide Entry, Bytes, Starts;
      var buffer := BuildEntry(kind, name, desc, descSize);
      noteStartPositions := noteStartPositions + [noteSection.size];
      noteSection.AppendData(buffer);
      ghost var n := Note(kind, name, if desc.Some? then desc.value else []);
      forall notes | old(Holds(notes)) && (desc.Some? || descSize == 0) && noteSection.sectionType != SHT_NOBITS ensures Holds(notes + [n]) {
        BytesAppend(swap, notes, n);
        StartsAppend(swap, notes, n, 0);
        EntryIs(n, desc, descSize);
      }
    }

    lemma EntryIs(n: Note, desc: Option<seq<byte>>, descSize: nat)
      requires (desc.Some? ==> n.desc == desc.value && |n.desc| == descSize) && (desc.None? ==> n.desc == [] && descSize == 0)
      ensures EntryOf(swap, n) == Entry(swap, n.kind, n.name, desc, descSize)
    {
    }

    /** Reads a note; nothing if it is damaged or the index is no less than the size
        of the section. Of other indexes the source only reads those of notes, and
        does not check them. */
    method GetNote(index: nat) returns (note: Option<Note>)
      requires noteSection.Valid()
      requires index < noteSection.size ==>
                 && index < |noteStartPositions| && noteStartPositions[index] + 12 <= noteSection.size
                 && (Damaged(swap, noteSection.Contents(), noteStartPositions[index])
                     || Placed(swap, noteSection.Contents(), noteStartPositions[index]))
      ensures note == if index >= noteSection.size then None
                      else NoteAt(swap, noteSection.Contents(), noteStartPositions[index])
    {
      hide WordAt, Aligned;
      if index >= noteSection.size { return None; }
      var at := noteStartPositions[index];
      var kind := ReadWord(at + 8);
      var namesz := ReadWord(at);
      var descSize := ReadWord(at + 4);
      var maxNameSize := (noteSection.size - at) % WORD_LIMIT;
      if namesz > maxNameSize || (namesz + descSize) % WORD_LIMIT > maxNameSize {
        return None;
      }
      var name := ReadBytes(at + 12, at + 12 + namesz - 1);
      if descSize == 0 {
        return Some(Note(kind, name, []));
      }
      var start := at + 12 + Aligned(namesz);
      var desc := ReadBytes(start, start + descSize);
      return Some(Note(kind, name, desc));
    }

    /** A note that was added can be read back, by this accessor and by any that scans
        the section afresh. */
    lemma AddedIsFound(notes: seq<Note>, i: nat)
      requires noteSection.Valid() && Holds(notes) && i < |notes| && noteSection.size < WORD_LIMIT
      ensures noteStartPositions == Scan(swap, noteSection.Contents(), 0)
      ensures i < noteSection.size && FoundAt(swap, noteSection.Contents(), noteStartPositions[i], notes[i])
    {
      RoundTrip(swap, notes);
      GuardTooWide(swap, notes);
    }
  }
}
