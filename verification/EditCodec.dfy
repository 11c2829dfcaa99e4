/** VersionEdit records (db/version_edit.cc): a tagged list of changes, encoded and decoded. */
module EditCodec {
  import opened Keys
  import opened Coding
  import opened Comparators
  import Files

  const COMPARATOR: nat := 1
  const LOG_NUMBER: nat := 2
  const NEXT_FILE_NUMBER: nat := 3
  const LAST_SEQUENCE: nat := 4
  const COMPACT_POINTER: nat := 5
  const DELETED_FILE: nat := 6
  const NEW_FILE: nat := 7

  datatype Deleted = Deleted(level: nat, number: nat)

  /** One tagged record of an edit. */
  datatype Field =
    | ComparatorName(name: Bytes)
    | LogNumber(number: nat)
    | NextFile(number: nat)
    | LastSequence(number: nat)
    | CompactPointer(level: nat, key: Bytes)
    | DeletedFile(file: Deleted)
    | NewFile(level: nat, number: nat, size: nat, smallest: Bytes, largest: Bytes)

  function EncodeField(f: Field): (r: Bytes)
    ensures r != []
  {
    match f
    case ComparatorName(name) => Varint(COMPARATOR) + Prefixed(name)
    case LogNumber(n) => Varint(LOG_NUMBER) + Varint(n)
    case NextFile(n) => Varint(NEXT_FILE_NUMBER) + Varint(n)
    case LastSequence(n) => Varint(LAST_SEQUENCE) + Varint(n)
    case CompactPointer(level, key) => Varint(COMPACT_POINTER) + (Varint(level) + Prefixed(key))
    case DeletedFile(file) => Varint(DELETED_FILE) + (Varint(file.level) + Varint(file.number))
    case NewFile(level, number, size, smallest, largest) =>
      Varint(NEW_FILE) + (Varint(level) + (Varint(number) + (Varint(size) + (Prefixed(smallest) + Prefixed(largest)))))
  }

  /** What the writer of an edit guarantees: known levels, word-sized numbers, proper internal keys. */
  predicate ProperKey(key: Bytes) {
    IsInternalKey(key) && |key| < LIMIT32
  }

  predicate ProperField(f: Field) {
    match f
    case ComparatorName(name) => |name| < LIMIT32
    case LogNumber(n) => n < LIMIT64
    case NextFile(n) => n < LIMIT64
    case LastSequence(n) => n < LIMIT64
    case CompactPointer(level, key) => level < Files.NUM_LEVELS && ProperKey(key)
    case DeletedFile(file) => file.level < Files.NUM_LEVELS && file.number < LIMIT64
    case NewFile(level, number, size, smallest, largest) =>
      level < Files.NUM_LEVELS && number < LIMIT64 && size < LIMIT64 && ProperKey(smallest) && ProperKey(largest)
  }

  // ------------------------------------------------------------------ decoding one record

  function GetLevel(s: Bytes): Option<Decoded> {
    match ReadVarint32(s)
    case None => None
    case Some(d) => if d.value >= Files.NUM_LEVELS then None else Some(d)
  }

  function GetInternalKey(s: Bytes): Option<Slice> {
    match ReadPrefixed(s)
    case None => None
    case Some(k) => if IsInternalKey(k.value) then Some(k) else None
  }

  datatype DecodedField = DecodedField(field: Field, rest: Bytes)

  function DecodeNumber(s: Bytes, make: nat -> Field): Option<DecodedField> {
    match ReadVarint64(s)
    case None => None
    case Some(d) => Some(DecodedField(make(d.value), d.rest))
  }

  function DecodeNewFile(s: Bytes): Option<DecodedField> {
    match GetLevel(s)
    case None => None
    case Some(level) =>
      match ReadVarint64(level.rest)
      case None => None
      case Some(number) =>
        match ReadVarint64(number.rest)
        case None => None
        case Some(size) =>
          match GetInternalKey(size.rest)
          case None => None
          case Some(smallest) =>
            match GetInternalKey(smallest.rest)
            case None => None
            case Some(largest) =>
              Some(DecodedField(NewFile(level.value, number.value, size.value, smallest.value, largest.value), largest.rest))
  }

  function DecodeField(s: Bytes): Option<DecodedField> {
    match ReadVarint32(s)
    case None => None
    case Some(tag) =>
      if tag.value == COMPARATOR then
        match ReadPrefixed(tag.rest)
        case None => None
        case Some(name) => Some(DecodedField(ComparatorName(name.value), name.rest))
      else if tag.value == LOG_NUMBER then DecodeNumber(tag.rest, (n: nat) => LogNumber(n))
      else if tag.value == NEXT_FILE_NUMBER then DecodeNumber(tag.rest, (n: nat) => NextFile(n))
      else if tag.value == LAST_SEQUENCE then DecodeNumber(tag.rest, (n: nat) => LastSequence(n))
      else if tag.value == COMPACT_POINTER then
        match GetLevel(tag.rest)
        case None => None
        case Some(level) =>
          match GetInternalKey(level.rest)
          case None => None
          case Some(key) => Some(DecodedField(CompactPointer(level.value, key.value), key.rest))
      else if tag.value == DELETED_FILE then
        match GetLevel(tag.rest)
        case None => None
        case Some(level) =>
          match ReadVarint64(level.rest)
          case None => None
          case Some(number) => Some(DecodedField(DeletedFile(Deleted(level.value, number.value)), number.rest))
      else if tag.value == NEW_FILE then DecodeNewFile(tag.rest)
      else None
  }

  lemma NewFileShrinks(s: Bytes)
    ensures DecodeNewFile(s).Some? ==> |DecodeNewFile(s).value.rest| < |s|
  {
    hide ReadVarint32, ReadVarint64, ReadPrefixed, IsInternalKey;
    if DecodeNewFile(s).Some? {
      VarintShrinks(s);
      var level := GetLevel(s).value;
      VarintShrinks(level.rest);
      var number := ReadVarint64(level.rest).value;
      VarintShrinks(number.rest);
      var size := ReadVarint64(number.rest).value;
      ReadPrefixedShrinks(size.rest);
      ReadPrefixedShrinks(GetInternalKey(size.rest).value.rest);
    }
  }

  lemma FieldShrinks(s: Bytes)
    ensures DecodeField(s).Some? ==> |DecodeField(s).value.rest| < |s|
  {
    hide ReadVarint32, ReadVarint64, ReadPrefixed, IsInternalKey, DecodeNewFile;
    VarintShrinks(s);
    if DecodeField(s).Some? {
      var tag := ReadVarint32(s).value;
      VarintShrinks(tag.rest);
      ReadPrefixedShrinks(tag.rest);
      NewFileShrinks(tag.rest);
      if GetLevel(tag.rest).Some? {
        VarintShrinks(GetLevel(tag.rest).value.rest);
        ReadPrefixedShrinks(GetLevel(tag.rest).value.rest);
      }
    }
  }

  lemma LevelRoundTrip(level: nat, rest: Bytes)
    requires level < Files.NUM_LEVELS
    ensures GetLevel(Varint(level) + rest) == Some(Decoded(level, rest))
  {
    Varint32RoundTrip(level, rest);
  }

  lemma KeyRoundTrip(key: Bytes, rest: Bytes)
    requires ProperKey(key)
    ensures GetInternalKey(Prefixed(key) + rest) == Some(Slice(key, rest))
  {
    PrefixedRoundTrip(key, rest);
  }

  lemma NewFileRoundTrip(level: nat, number: nat, size: nat, smallest: Bytes, largest: Bytes, rest: Bytes)
    requires ProperField(NewFile(level, number, size, smallest, largest))
    ensures DecodeNewFile(Varint(level) + (Varint(number) + (Varint(size) + (Prefixed(smallest) + (Prefixed(largest) + rest)))))
            == Some(DecodedField(NewFile(level, number, size, smallest, largest), rest))
  {
    hide Varint, Prefixed, GetLevel, ReadVarint64, GetInternalKey, ProperKey;
    KeyRoundTrip(largest, rest);
    KeyRoundTrip(smallest, Prefixed(largest) + rest);
    Varint64RoundTrip(size, Prefixed(smallest) + (Prefixed(largest) + rest));
    Varint64RoundTrip(number, Varint(size) + (Prefixed(smallest) + (Prefixed(largest) + rest)));
    LevelRoundTrip(level, Varint(number) + (Varint(size) + (Prefixed(smallest) + (Prefixed(largest) + rest))));
  }

  function TagOf(f: Field): nat {
    match f
    case ComparatorName(_) => COMPARATOR
    case LogNumber(_) => LOG_NUMBER
    case NextFile(_) => NEXT_FILE_NUMBER
    case LastSequence(_) => LAST_SEQUENCE
    case CompactPointer(_, _) => COMPACT_POINTER
    case DeletedFile(_) => DELETED_FILE
    case NewFile(_, _, _, _, _) => NEW_FILE
  }

  /** A record decodes to itself whatever follows. */
  lemma FieldRoundTrip(f: Field, rest: Bytes)
    requires ProperField(f)
    ensures DecodeField(EncodeField(f) + rest) == Some(DecodedField(f, rest))
  {
    hide Varint, Prefixed, GetLevel, ReadVarint32, ReadVarint64, GetInternalKey, ReadPrefixed, DecodeNewFile, ProperKey;
    var tag := Varint(TagOf(f));
    match f
    case ComparatorName(name) =>
      assert EncodeField(f) + rest == tag + (Prefixed(name) + rest);
      Varint32RoundTrip(TagOf(f), Prefixed(name) + rest);
      PrefixedRoundTrip(name, rest);
    case LogNumber(n) =>
      assert EncodeField(f) + rest == tag + (Varint(n) + rest);
      Varint32RoundTrip(TagOf(f), Varint(n) + rest);
      Varint64RoundTrip(n, rest);
    case NextFile(n) =>
      assert EncodeField(f) + rest == tag + (Varint(n) + rest);
      Varint32RoundTrip(TagOf(f), Varint(n) + rest);
      Varint64RoundTrip(n, rest);
    case LastSequence(n) =>
      assert EncodeField(f) + rest == tag + (Varint(n) + rest);
      Varint32RoundTrip(TagOf(f), Varint(n) + rest);
      Varint64RoundTrip(n, rest);
    case CompactPointer(level, key) =>
      var body := Varint(level) + (Prefixed(key) + rest);
      assert EncodeField(f) + rest == tag + body;
      Varint32RoundTrip(TagOf(f), body);
      LevelRoundTrip(level, Prefixed(key) + rest);
      KeyRoundTrip(key, rest);
    case DeletedFile(file) =>
      var body := Varint(file.level) + (Varint(file.number) + rest);
      assert EncodeField(f) + rest == tag + body;
      Varint32RoundTrip(TagOf(f), body);
      LevelRoundTrip(file.level, Varint(file.number) + rest);
      Varint64RoundTrip(file.number, rest);
    case NewFile(level, number, size, smallest, largest) =>
      var body := Varint(level) + (Varint(number) + (Varint(size) + (Prefixed(smallest) + (Prefixed(largest) + rest))));
      assert EncodeField(f) + rest == tag + body;
      Varint32RoundTrip(TagOf(f), body);
      NewFileRoundTrip(level, number, size, smallest, largest, rest);
  }

  /** Whatever is decoded is a proper record under its own tag: unknown tags, levels there are none of, and keys that are
      no internal keys are refused. */
  lemma DecodedIsProper(s: Bytes)
    requires DecodeField(s).Some?
    ensures ProperField(DecodeField(s).value.field)
    ensures ReadVarint32(s).Some? && ReadVarint32(s).value.value == TagOf(DecodeField(s).value.field)
  {
    hide Digits, IsInternalKey, Varint;
    VarintWidths(s);
    var tag := ReadVarint32(s).value;
    if tag.value == NEW_FILE {
      NewFileIsProper(tag.rest);
    } else {
      VarintWidths(tag.rest);
      PrefixedWidth(tag.rest);
      if GetLevel(tag.rest).Some? {
        VarintWidths(GetLevel(tag.rest).value.rest);
        PrefixedWidth(GetLevel(tag.rest).value.rest);
      }
    }
  }

  lemma NewFileIsProper(s: Bytes)
    requires DecodeNewFile(s).Some?
    ensures DecodeNewFile(s).value.field.NewFile? && ProperField(DecodeNewFile(s).value.field)
  {
    hide Digits, IsInternalKey, Varint;
    var level := GetLevel(s).value;
    VarintWidths(level.rest);
    var number := ReadVarint64(level.rest).value;
    VarintWidths(number.rest);
    var size := ReadVarint64(number.rest).value;
    PrefixedWidth(size.rest);
    PrefixedWidth(GetInternalKey(size.rest).value.rest);
  }

  lemma VarintWidths(s: Bytes)
    ensures ReadVarint32(s).Some? ==> ReadVarint32(s).value.value < LIMIT32
    ensures ReadVarint64(s).Some? ==> ReadVarint64(s).value.value < LIMIT64
  {
    hide Digits;
  }

  lemma PrefixedWidth(s: Bytes)
    ensures ReadPrefixed(s).Some? ==> |ReadPrefixed(s).value.value| < LIMIT32
  {
    hide Digits;
  }

  // ------------------------------------------------------------------ whole edits

  datatype Pointer = Pointer(level: nat, key: Bytes)
  datatype Added = Added(level: nat, number: nat, size: nat, smallest: Bytes, largest: Bytes)

  /** The contents of an edit. */
  datatype Contents = Contents(comparator: Option<Bytes>, logNumber: Option<nat>, nextFile: Option<nat>, lastSequence: Option<nat>,
                               pointers: seq<Pointer>, deleted: set<Deleted>, added: seq<Added>)

  const CLEAR: Contents := Contents(None, None, None, None, [], {}, [])

  function PointerFields(ps: seq<Pointer>): seq<Field> {
    if ps == [] then [] else PointerFields(ps[..|ps| - 1]) + [CompactPointer(ps[|ps| - 1].level, ps[|ps| - 1].key)]
  }

  function DeletedFields(ds: seq<Deleted>): seq<Field> {
    if ds == [] then [] else DeletedFields(ds[..|ds| - 1]) + [DeletedFile(ds[|ds| - 1])]
  }

  function FileField(a: Added): Field {
    NewFile(a.level, a.number, a.size, a.smallest, a.largest)
  }

  function AddedFields(fs: seq<Added>): seq<Field> {
    if fs == [] then [] else AddedFields(fs[..|fs| - 1]) + [FileField(fs[|fs| - 1])]
  }

  function ScalarFields(c: Contents): seq<Field> {
    (match c.comparator case None => [] case Some(name) => [ComparatorName(name)]) +
    (match c.logNumber case None => [] case Some(n) => [LogNumber(n)]) +
    (match c.nextFile case None => [] case Some(n) => [NextFile(n)]) +
    (match c.lastSequence case None => [] case Some(n) => [LastSequence(n)])
  }

  /** The records EncodeTo writes; `order` lists the deleted files as their set is iterated. */
  function FieldsOf(c: Contents, order: seq<Deleted>): seq<Field> {
    ScalarFields(c) + PointerFields(c.pointers) + DeletedFields(order) + AddedFields(c.added)
  }

  function EncodeFields(fs: seq<Field>): Bytes {
    if fs == [] then [] else EncodeFields(fs[..|fs| - 1]) + EncodeField(fs[|fs| - 1])
  }

  function ApplyField(c: Contents, f: Field): Contents {
    match f
    case ComparatorName(name) => c.(comparator := Some(name))
    case LogNumber(n) => c.(logNumber := Some(n))
    case NextFile(n) => c.(nextFile := Some(n))
    case LastSequence(n) => c.(lastSequence := Some(n))
    case CompactPointer(level, key) => c.(pointers := c.pointers + [Pointer(level, key)])
    case DeletedFile(file) => c.(deleted := c.deleted + {file})
    case NewFile(level, number, size, smallest, largest) => c.(added := c.added + [Added(level, number, size, smallest, largest)])
  }

  function ApplyAll(c: Contents, fs: seq<Field>): Contents {
    if fs == [] then c else ApplyField(ApplyAll(c, fs[..|fs| - 1]), fs[|fs| - 1])
  }

  /** Decoding on top of what has been decoded; no result for a malformed record. */
  function DecodeFields(s: Bytes, c: Contents): Option<Contents>
    decreases |s|
  {
    if s == [] then Some(c)
    else
      match DecodeField(s)
      case None => None
      case Some(d) =>
        FieldShrinks(s);
        DecodeFields(d.rest, ApplyField(c, d.field))
  }

  lemma {:induction false} EncodeConcat(a: seq<Field>, b: seq<Field>)
    ensures EncodeFields(a + b) == EncodeFields(a) + EncodeFields(b)
  {
    hide EncodeField;
    if b == [] {
      assert a + b == a;
    } else {
      var n := |b| - 1;
      EncodeConcat(a, b[..n]);
      assert (a + b)[..|a + b| - 1] == a + b[..n];
    }
  }

  lemma EncodeFront(fs: seq<Field>)
    requires fs != []
    ensures EncodeFields(fs) == EncodeField(fs[0]) + EncodeFields(fs[1..])
  {
    hide EncodeField;
    EncodeConcat([fs[0]], fs[1..]);
    assert fs == [fs[0]] + fs[1..];
    assert [fs[0]][..0] == [];
    assert EncodeFields([fs[0]]) == EncodeFields([]) + EncodeField(fs[0]);
  }

  lemma {:induction false} ApplyConcat(c: Contents, a: seq<Field>, b: seq<Field>)
    ensures ApplyAll(c, a + b) == ApplyAll(ApplyAll(c, a), b)
  {
    hide ApplyField;
    if b == [] {
      assert a + b == a;
    } else {
      var n := |b| - 1;
      ApplyConcat(c, a, b[..n]);
      assert (a + b)[..|a + b| - 1] == a + b[..n];
    }
  }

  lemma ApplyFront(c: Contents, fs: seq<Field>)
    requires fs != []
    ensures ApplyAll(c, fs) == ApplyAll(ApplyField(c, fs[0]), fs[1..])
  {
    hide ApplyField;
    ApplyConcat(c, [fs[0]], fs[1..]);
    assert fs == [fs[0]] + fs[1..];
    assert [fs[0]][..0] == [];
    assert ApplyAll(c, [fs[0]]) == ApplyField(ApplyAll(c, []), fs[0]);
  }

  ghost predicate AllProper(fs: seq<Field>) {
    forall i :: 0 <= i < |fs| ==> ProperField(fs[i])
  }

  lemma {:induction false} FieldsRoundTrip(c: Contents, fs: seq<Field>)
    requires AllProper(fs)
    ensures DecodeFields(EncodeFields(fs), c) == Some(ApplyAll(c, fs))
    decreases |fs|
  {
    hide EncodeField, DecodeField, ApplyField, ProperField;
    if fs != [] {
      EncodeFront(fs);
      ApplyFront(c, fs);
      FieldRoundTrip(fs[0], EncodeFields(fs[1..]));
      FieldsRoundTrip(ApplyField(c, fs[0]), fs[1..]);
    }
  }

  /** Bytes behind proper records that are no record make the whole edit malformed. */
  lemma {:induction false} MalformedFails(c: Contents, fs: seq<Field>, bad: Bytes)
    requires AllProper(fs) && bad != [] && DecodeField(bad).None?
    ensures DecodeFields(EncodeFields(fs) + bad, c) == None
    decreases |fs|
  {
    hide EncodeField, DecodeField, ApplyField, ProperField;
    if fs == [] {
      assert EncodeFields(fs) + bad == bad;
    } else {
      EncodeFront(fs);
      var rest := EncodeFields(fs[1..]) + bad;
      assert EncodeFields(fs) + bad == EncodeField(fs[0]) + rest;
      FieldRoundTrip(fs[0], rest);
      MalformedFails(ApplyField(c, fs[0]), fs[1..], bad);
    }
  }

  lemma ApplyLast(c: Contents, fs: seq<Field>, f: Field)
    ensures ApplyAll(c, fs + [f]) == ApplyField(ApplyAll(c, fs), f)
  {
    hide ApplyField;
    assert (fs + [f])[..|fs|] == fs;
  }

  lemma {:induction false} ApplyPointers(c: Contents, ps: seq<Pointer>)
    ensures ApplyAll(c, PointerFields(ps)) == c.(pointers := c.pointers + ps)
  {
    if ps != [] {
      var n := |ps| - 1;
      ApplyPointers(c, ps[..n]);
      ApplyLast(c, PointerFields(ps[..n]), CompactPointer(ps[n].level, ps[n].key));
      hide ApplyAll;
      assert c.pointers + ps[..n] + [ps[n]] == c.pointers + ps;
    } else {
      assert c.pointers + [] == c.pointers;
    }
  }

  function Members(ds: seq<Deleted>): set<Deleted> {
    set d | d in ds
  }

  lemma OneMoreDeleted(ds: seq<Deleted>)
    requires ds != []
    ensures Members(ds) == Members(ds[..|ds| - 1]) + {ds[|ds| - 1]}
  {
    assert ds == ds[..|ds| - 1] + [ds[|ds| - 1]];
  }

  lemma {:induction false} ApplyDeleted(c: Contents, ds: seq<Deleted>)
    ensures ApplyAll(c, DeletedFields(ds)) == c.(deleted := c.deleted + Members(ds))
  {
    if ds != [] {
      var n := |ds| - 1;
      ApplyDeleted(c, ds[..n]);
      ApplyLast(c, DeletedFields(ds[..n]), DeletedFile(ds[n]));
      hide ApplyAll;
      OneMoreDeleted(ds);
      assert c.deleted + Members(ds[..n]) + {ds[n]} == c.deleted + Members(ds);
    } else {
      assert c.deleted + Members(ds) == c.deleted;
    }
  }

  lemma {:induction false} ApplyAdded(c: Contents, fs: seq<Added>)
    ensures ApplyAll(c, AddedFields(fs)) == c.(added := c.added + fs)
  {
    if fs != [] {
      var n := |fs| - 1;
      ApplyAdded(c, fs[..n]);
      ApplyLast(c, AddedFields(fs[..n]), FileField(fs[n]));
      hide ApplyAll;
      assert c.added + fs[..n] + [fs[n]] == c.added + fs;
    } else {
      assert c.added + [] == c.added;
    }
  }

  lemma ApplyScalars(c: Contents)
    ensures ApplyAll(CLEAR, ScalarFields(c)) == CLEAR.(comparator := c.comparator, logNumber := c.logNumber, nextFile := c.nextFile, lastSequence := c.lastSequence)
  {
    hide ApplyAll;
    var a := match c.comparator case None => [] case Some(name) => [ComparatorName(name)];
    var b := match c.logNumber case None => [] case Some(n) => [LogNumber(n)];
    var d := match c.nextFile case None => [] case Some(n) => [NextFile(n)];
    var e := match c.lastSequence case None => [] case Some(n) => [LastSequence(n)];
    ApplyConcat(CLEAR, a + b + d, e);
    ApplyConcat(CLEAR, a + b, d);
    ApplyConcat(CLEAR, a, b);
    ApplyAtMostOne(CLEAR, a);
    ApplyAtMostOne(ApplyAll(CLEAR, a), b);
    ApplyAtMostOne(ApplyAll(CLEAR, a + b), d);
    ApplyAtMostOne(ApplyAll(CLEAR, a + b + d), e);
  }

  lemma ApplyAtMostOne(c: Contents, fs: seq<Field>)
    requires |fs| <= 1
    ensures ApplyAll(c, fs) == if fs == [] then c else ApplyField(c, fs[0])
  {
    if |fs| == 1 {
      assert fs[..0] == [];
      assert ApplyAll(c, []) == c;
    }
  }

  /** An edit decodes to itself, in whatever order its set of deleted files is written. */
  lemma EditRoundTrip(c: Contents, order: seq<Deleted>)
    requires Members(order) == c.deleted
    requires AllProper(FieldsOf(c, order))
    ensures DecodeFields(EncodeFields(FieldsOf(c, order)), CLEAR) == Some(c)
  {
    FieldsRoundTrip(CLEAR, FieldsOf(c, order));
    hide *;
    ApplyFieldsOf(c, order);
  }

  lemma ApplyFieldsOf(c: Contents, order: seq<Deleted>)
    requires Members(order) == c.deleted
    ensures ApplyAll(CLEAR, FieldsOf(c, order)) == c
  {
    hide ApplyField, ApplyAll, ScalarFields, PointerFields, DeletedFields, AddedFields, Members;
    var s, p, d, a := ScalarFields(c), PointerFields(c.pointers), DeletedFields(order), AddedFields(c.added);
    ApplyConcat(CLEAR, s + p + d, a);
    ApplyConcat(CLEAR, s + p, d);
    ApplyConcat(CLEAR, s, p);
    ApplyScalars(c);
    var c1 := CLEAR.(comparator := c.comparator, logNumber := c.logNumber, nextFile := c.nextFile, lastSequence := c.lastSequence);
    ApplyPointers(c1, c.pointers);
    var c2 := c1.(pointers := c.pointers);
    assert c1.pointers + c.pointers == c.pointers;
    ApplyDeleted(c2, order);
    var c3 := c2.(deleted := c.deleted);
    assert c2.deleted + c.deleted == c.deleted;
    ApplyAdded(c3, c.added);
    assert c3.added + c.added == c.added;
  }

  // ------------------------------------------------------------------ the class

  class VersionEdit {
    var comparator: Option<Bytes>
    var logNumber: Option<nat>
    var nextFile: Option<nat>
    var lastSequence: Option<nat>
    var pointers: seq<Pointer>
    var deleted: set<Deleted>
    var added: seq<Added>

    constructor ()
      ensures Value() == CLEAR
    {
      comparator, logNumber, nextFile, lastSequence := None, None, None, None;
      pointers, deleted, added := [], {}, [];
    }

    function Value(): Contents
      reads this
    {
      Contents(comparator, logNumber, nextFile, lastSequence, pointers, deleted, added)
    }

    method Clear()
      modifies this
      ensures Value() == CLEAR
    {
      comparator, logNumber, nextFile, lastSequence := None, None, None, None;
      pointers, deleted, added := [], {}, [];
    }

    /** Appends the edit's records; `order` is the iteration order of the set of deleted files. */
    method EncodeTo(dst: Bytes, order: seq<Deleted>) returns (r: Bytes)
      requires Members(order) == deleted
      ensures r == dst + EncodeFields(FieldsOf(Value(), order))
    {
      hide EncodeField, EncodeFields, ScalarFields, PointerFields, DeletedFields, AddedFields;
      r := EncodeScalars(dst);
      r := EncodeLists(dst, r, ScalarFields(Value()), order);
    }

    method EncodeScalars(dst: Bytes) returns (r: Bytes)
      ensures r == dst + EncodeFields(ScalarFields(Value()))
    {
      hide EncodeField, EncodeFields;
      NoFields();
      ghost var fs: seq<Field>;
      r, fs := dst, [];
      if comparator.Some? {
        r, fs := Emit(dst, r, fs, ComparatorName(comparator.value));
      }
      if logNumber.Some? {
        r, fs := Emit(dst, r, fs, LogNumber(logNumber.value));
      }
      if nextFile.Some? {
        r, fs := Emit(dst, r, fs, NextFile(nextFile.value));
      }
      if lastSequence.Some? {
        r, fs := Emit(dst, r, fs, LastSequence(lastSequence.value));
      }
      assert fs == ScalarFields(Value());
    }

    method EncodeLists(dst: Bytes, r0: Bytes, ghost fs0: seq<Field>, order: seq<Deleted>) returns (r: Bytes)
      requires r0 == dst + EncodeFields(fs0)
      ensures r == dst + EncodeFields(fs0 + PointerFields(pointers) + DeletedFields(order) + AddedFields(added))
    {
      hide EncodeField, EncodeFields;
      ghost var fs;
      r, fs := r0, fs0;
      for i := 0 to |pointers|
        invariant r == dst + EncodeFields(fs) && fs == fs0 + PointerFields(pointers[..i])
      {
        assert pointers[..i + 1][..i] == pointers[..i];
        r, fs := Emit(dst, r, fs, CompactPointer(pointers[i].level, pointers[i].key));
      }
      assert pointers[..|pointers|] == pointers;
      ghost var withPointers := fs;
      for i := 0 to |order|
        invariant r == dst + EncodeFields(fs) && fs == withPointers + DeletedFields(order[..i])
      {
        assert order[..i + 1][..i] == order[..i];
        r, fs := Emit(dst, r, fs, DeletedFile(order[i]));
      }
      assert order[..|order|] == order;
      ghost var withDeleted := fs;
      for i := 0 to |added|
        invariant r == dst + EncodeFields(fs) && fs == withDeleted + AddedFields(added[..i])
      {
        assert added[..i + 1][..i] == added[..i];
        r, fs := Emit(dst, r, fs, FileField(added[i]));
      }
      assert added[..|added|] == added;
    }

    method Apply(f: Field)
      modifies this
      ensures Value() == ApplyField(old(Value()), f)
    {
      match f {
        case ComparatorName(name) => comparator := Some(name);
        case LogNumber(n) => logNumber := Some(n);
        case NextFile(n) => nextFile := Some(n);
        case LastSequence(n) => lastSequence := Some(n);
        case CompactPointer(level, key) => pointers := pointers + [Pointer(level, key)];
        case DeletedFile(file) => deleted := deleted + {file};
        case NewFile(level, number, size, smallest, largest) =>
          added := added + [Added(level, number, size, smallest, largest)];
      }
    }

    /** Replaces the edit by what the bytes say; false for a malformed record. */
    method DecodeFrom(src: Bytes) returns (ok: bool)
      modifies this
      ensures match DecodeFields(src, CLEAR)
              case None => !ok
              case Some(c) => ok && Value() == c
    {
      hide DecodeField, ApplyField;
      Clear();
      var input := src;
      while input != []
        invariant DecodeFields(src, CLEAR) == DecodeFields(input, Value())
        decreases |input|
      {
        FieldShrinks(input);
        match DecodeField(input) {
          case None =>
            return false;
          case Some(d) =>
            Apply(d.field);
            input := d.rest;
        }
      }
      ok := true;
    }
  }

  lemma NoFields()
    ensures EncodeFields([]) == []
  {
  }

  method Emit(dst: Bytes, r: Bytes, ghost fs: seq<Field>, f: Field) returns (r': Bytes, ghost fs': seq<Field>)
    requires r == dst + EncodeFields(fs)
    ensures fs' == fs + [f] && r' == dst + EncodeFields(fs') && r' == r + EncodeField(f)
  {
    hide EncodeField;
    r' := r + EncodeField(f);
    fs' := fs + [f];
    assert fs'[..|fs|] == fs;
  }
}
