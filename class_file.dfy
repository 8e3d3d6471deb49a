/** The top-level `ClassFile` structure (section 4.1 of the Java Virtual
    Machine Specification, Java SE 8) and its decoder.

    The decoder reads its items from one cursor in a fixed order: magic,
    version, constant pool, access flags, this class, super class,
    interfaces, fields, methods, attributes.  The magic and version checks,
    the constant pool, the member and attribute tables and the class-name
    lookup in the pool are decoded by code that is not part of this model;
    they are parameters here (`Decoders`), each run on the same cursor. */
module ClassFile {
  import opened Faults
  import opened ClassReader

  /** An entry of the constant pool; its layout is not part of this model. */
  type ConstantInfo
  /** A field or method table entry; its layout is not part of this model. */
  type MemberInfo
  /** An attribute table entry; its layout is not part of this model. */
  type AttributeInfo

  /** The constant pool is a slice of entries; its zero value is the nil slice. */
  type ConstantPool = seq<ConstantInfo>

  /** A decoder that runs on the cursor and is not part of this model. */
  type SubDecoder<T> = seq<u8> -> Step<T>

  /** The collaborators of the decoder and of the name accessors. */
  datatype Decoders = Decoders(
    readAndCheckMagic: SubDecoder<()>,
    readAndCheckVersion: SubDecoder<(u16, u16)>,   // (minor, major)
    readConstantPool: SubDecoder<ConstantPool>,
    readMembers: ConstantPool -> SubDecoder<seq<MemberInfo>>,
    readAttributes: ConstantPool -> SubDecoder<seq<AttributeInfo>>,
    getClassName: (ConstantPool, u16) -> string)

  /** The fields of a `ClassFile`, as a value. */
  datatype ClassFileValue = ClassFileValue(
    minorVersion: u16,
    majorVersion: u16,
    constantPool: ConstantPool,
    accessFlags: u16,
    thisClass: u16,
    superClass: u16,
    interfaces: seq<u16>,
    fields: seq<MemberInfo>,
    methods: seq<MemberInfo>,
    attributes: seq<AttributeInfo>)

  /** The zero value of `ClassFile{}`: every number 0, every slice nil. */
  const Zero := ClassFileValue(0, 0, [], 0, 0, 0, [], [], [], [])

  /** The outcome of `read`: the fields as they stand when it stops, and the
      panic that stopped it, if any. */
  datatype Decoded = Decoded(partial: ClassFileValue, fault: Option<Panic>)

  /** The items of the structure, in the order `read` consumes them. */
  datatype Item =
    | Magic | Version | ConstantPoolItem | AccessFlags | ThisClass | SuperClass
    | Interfaces | Fields | Methods | Attributes

  /** The item `read` reads after `item`. */
  function Successor(item: Item): Item
    requires item != Attributes
  {
    match item
    case Magic => Version
    case Version => ConstantPoolItem
    case ConstantPoolItem => AccessFlags
    case AccessFlags => ThisClass
    case ThisClass => SuperClass
    case SuperClass => Interfaces
    case Interfaces => Fields
    case Fields => Methods
    case Methods => Attributes
  }

  /** How many items `read` reads after `item`. */
  function Remaining(item: Item): nat
  {
    match item
    case Magic => 9
    case Version => 8
    case ConstantPoolItem => 7
    case AccessFlags => 6
    case ThisClass => 5
    case SuperClass => 4
    case Interfaces => 3
    case Fields => 2
    case Methods => 1
    case Attributes => 0
  }

  /** `read` from `item` on, with `s` the bytes left and `cf` the fields
      stored so far: each item is read from what the previous one left and
      stored; a fault stops the reads with the fields stored so far. */
  function ReadFrom(d: Decoders, item: Item, s: seq<u8>, cf: ClassFileValue): Decoded
    decreases Remaining(item), 1
  {
    match item
    case Magic => FromMagic(d, s, cf)
    case Version => FromVersion(d, s, cf)
    case ConstantPoolItem => FromConstantPool(d, s, cf)
    case AccessFlags => FromAccessFlags(d, s, cf)
    case ThisClass => FromThisClass(d, s, cf)
    case SuperClass => FromSuperClass(d, s, cf)
    case Interfaces => FromInterfaces(d, s, cf)
    case Fields => FromFields(d, s, cf)
    case Methods => FromMethods(d, s, cf)
    case Attributes => FromAttributes(d, s, cf)
  }

  /** The magic check, then the rest. */
  function FromMagic(d: Decoders, s: seq<u8>, cf: ClassFileValue): Decoded
    decreases Remaining(Magic), 0
  {
    match Advance(s, d.readAndCheckMagic(s))
    case Fail(p) => Decoded(cf, Some(p))
    case Ok(m) => ReadFrom(d, Version, m.rest, cf)
  }

  /** The version check, storing minor and major version, then the rest. */
  function FromVersion(d: Decoders, s: seq<u8>, cf: ClassFileValue): Decoded
    decreases Remaining(Version), 0
  {
    match Advance(s, d.readAndCheckVersion(s))
    case Fail(p) => Decoded(cf, Some(p))
    case Ok(m) => ReadFrom(d, ConstantPoolItem, m.rest, cf.(minorVersion := m.value.0, majorVersion := m.value.1))
  }

  /** The constant pool, then the rest. */
  function FromConstantPool(d: Decoders, s: seq<u8>, cf: ClassFileValue): Decoded
    decreases Remaining(ConstantPoolItem), 0
  {
    match Advance(s, d.readConstantPool(s))
    case Fail(p) => Decoded(cf, Some(p))
    case Ok(m) => ReadFrom(d, AccessFlags, m.rest, cf.(constantPool := m.value))
  }

  /** The access flags (u2), then the rest. */
  function FromAccessFlags(d: Decoders, s: seq<u8>, cf: ClassFileValue): Decoded
    decreases Remaining(AccessFlags), 0
  {
    match Uint16Read(s)
    case Fail(p) => Decoded(cf, Some(p))
    case Ok(m) => ReadFrom(d, ThisClass, m.rest, cf.(accessFlags := m.value))
  }

  /** The this-class index (u2), then the rest. */
  function FromThisClass(d: Decoders, s: seq<u8>, cf: ClassFileValue): Decoded
    decreases Remaining(ThisClass), 0
  {
    match Uint16Read(s)
    case Fail(p) => Decoded(cf, Some(p))
    case Ok(m) => ReadFrom(d, SuperClass, m.rest, cf.(thisClass := m.value))
  }

  /** The super-class index (u2), then the rest. */
  function FromSuperClass(d: Decoders, s: seq<u8>, cf: ClassFileValue): Decoded
    decreases Remaining(SuperClass), 0
  {
    match Uint16Read(s)
    case Fail(p) => Decoded(cf, Some(p))
    case Ok(m) => ReadFrom(d, Interfaces, m.rest, cf.(superClass := m.value))
  }

  /** The interface index table (u2 count, then u2 each), then the rest. */
  function FromInterfaces(d: Decoders, s: seq<u8>, cf: ClassFileValue): Decoded
    decreases Remaining(Interfaces), 0
  {
    match Uint16sRead(s)
    case Fail(p) => Decoded(cf, Some(p))
    case Ok(m) => ReadFrom(d, Fields, m.rest, cf.(interfaces := m.value))
  }

  /** The field table, then the rest. */
  function FromFields(d: Decoders, s: seq<u8>, cf: ClassFileValue): Decoded
    decreases Remaining(Fields), 0
  {
    match Advance(s, d.readMembers(cf.constantPool)(s))
    case Fail(p) => Decoded(cf, Some(p))
    case Ok(m) => ReadFrom(d, Methods, m.rest, cf.(fields := m.value))
  }

  /** The method table, then the rest. */
  function FromMethods(d: Decoders, s: seq<u8>, cf: ClassFileValue): Decoded
    decreases Remaining(Methods), 0
  {
    match Advance(s, d.readMembers(cf.constantPool)(s))
    case Fail(p) => Decoded(cf, Some(p))
    case Ok(m) => ReadFrom(d, Attributes, m.rest, cf.(methods := m.value))
  }

  /** The attribute table; `read` ends with it. */
  function FromAttributes(d: Decoders, s: seq<u8>, cf: ClassFileValue): Decoded
    decreases Remaining(Attributes), 0
  {
    match Advance(s, d.readAttributes(cf.constantPool)(s))
    case Fail(p) => Decoded(cf, Some(p))
    case Ok(m) => Decoded(cf.(attributes := m.value), None)
  }

  /** `Parse` on `classData`: `read` run on a fresh cursor into a zero struct. */
  function Decode(d: Decoders, classData: seq<u8>): (r: Decoded)
    ensures d.readAndCheckMagic(classData).Fault? ==>
              r == Decoded(Zero, Some(d.readAndCheckMagic(classData).panic))
  {
    ReadFrom(d, Magic, classData, Zero)
  }

  /** The bytes left once magic, version and constant pool are read, if
      those three reads succeed. */
  function AfterConstantPool(d: Decoders, s: seq<u8>): Option<seq<u8>>
  {
    match Advance(s, d.readAndCheckMagic(s))
    case Fail(_) => None
    case Ok(m1) =>
      match Advance(m1.rest, d.readAndCheckVersion(m1.rest))
      case Fail(_) => None
      case Ok(m2) =>
        match Advance(m2.rest, d.readConstantPool(m2.rest))
        case Fail(_) => None
        case Ok(m3) => Some(m3.rest)
  }

  /** The struct as it stands once the constant pool is read. */
  function AtConstantPool(d: Decoders, s: seq<u8>): ClassFileValue
    requires AfterConstantPool(d, s).Some?
  {
    var m1 := Advance(s, d.readAndCheckMagic(s)).value;
    var m2 := Advance(m1.rest, d.readAndCheckVersion(m1.rest)).value;
    var m3 := Advance(m2.rest, d.readConstantPool(m2.rest)).value;
    Zero.(minorVersion := m2.value.0, majorVersion := m2.value.1, constantPool := m3.value)
  }

  lemma DecodeReachesAccessFlags(d: Decoders, s: seq<u8>)
    requires AfterConstantPool(d, s).Some?
    ensures Decode(d, s) == ReadFrom(d, AccessFlags, AfterConstantPool(d, s).value, AtConstantPool(d, s))
  {
    var m1 := Advance(s, d.readAndCheckMagic(s)).value;
    var m2 := Advance(m1.rest, d.readAndCheckVersion(m1.rest)).value;
    assert Decode(d, s) == ReadFrom(d, Version, m1.rest, Zero);
    assert ReadFrom(d, Version, m1.rest, Zero) ==
      ReadFrom(d, ConstantPoolItem, m2.rest, Zero.(minorVersion := m2.value.0, majorVersion := m2.value.1));
  }

  /** `a` and `b` hold the same items among those read before `item` (the
      magic check stores nothing). */
  ghost predicate AgreeBefore(item: Item, a: ClassFileValue, b: ClassFileValue)
  {
    var version := a.minorVersion == b.minorVersion && a.majorVersion == b.majorVersion;
    var pool := version && a.constantPool == b.constantPool;
    var flags := pool && a.accessFlags == b.accessFlags;
    var thisIndex := flags && a.thisClass == b.thisClass;
    var superIndex := thisIndex && a.superClass == b.superClass;
    var ifaces := superIndex && a.interfaces == b.interfaces;
    var fieldTable := ifaces && a.fields == b.fields;
    match item
    case Magic => true
    case Version => true
    case ConstantPoolItem => version
    case AccessFlags => pool
    case ThisClass => flags
    case SuperClass => thisIndex
    case Interfaces => superIndex
    case Fields => ifaces
    case Methods => fieldTable
    case Attributes => fieldTable && a.methods == b.methods
  }

  /** Once an item is stored no later read overwrites it: whatever `read`
      does from `item` on, the items before `item` keep their values. */
  lemma {:induction false} ReadKeepsEarlierItems(d: Decoders, item: Item, s: seq<u8>, cf: ClassFileValue)
    ensures AgreeBefore(item, ReadFrom(d, item, s, cf).partial, cf)
    decreases Remaining(item)
  {
    match item
    case Magic =>
    case Version =>
    case ConstantPoolItem =>
      match Advance(s, d.readConstantPool(s)) {
        case Fail(_) =>
        case Ok(m) => ReadKeepsEarlierItems(d, AccessFlags, m.rest, cf.(constantPool := m.value));
      }
    case AccessFlags =>
      match Uint16Read(s) {
        case Fail(_) =>
        case Ok(m) => ReadKeepsEarlierItems(d, ThisClass, m.rest, cf.(accessFlags := m.value));
      }
    case ThisClass =>
      match Uint16Read(s) {
        case Fail(_) =>
        case Ok(m) => ReadKeepsEarlierItems(d, SuperClass, m.rest, cf.(thisClass := m.value));
      }
    case SuperClass =>
      match Uint16Read(s) {
        case Fail(_) =>
        case Ok(m) => ReadKeepsEarlierItems(d, Interfaces, m.rest, cf.(superClass := m.value));
      }
    case Interfaces =>
      match Uint16sRead(s) {
        case Fail(_) =>
        case Ok(m) => ReadKeepsEarlierItems(d, Fields, m.rest, cf.(interfaces := m.value));
      }
    case Fields =>
      match Advance(s, d.readMembers(cf.constantPool)(s)) {
        case Fail(_) =>
        case Ok(m) => ReadKeepsEarlierItems(d, Methods, m.rest, cf.(fields := m.value));
      }
    case Methods =>
      match Advance(s, d.readMembers(cf.constantPool)(s)) {
        case Fail(_) =>
        case Ok(m) => ReadKeepsEarlierItems(d, Attributes, m.rest, cf.(methods := m.value));
      }
    case Attributes =>
  }

  /** `read` from the access flags on, over the bytes `t`: access flags,
      this class and super class are the first three u16 values of `t` and
      the interfaces the u16 table right after them.  Once stored they
      stay, whatever the later reads do; bytes too short for them fault. */
  lemma LinkageRead(d: Decoders, t: seq<u8>, cf: ClassFileValue)
    ensures var r := ReadFrom(d, AccessFlags, t, cf);
      && (|t| < 6 ==> r.fault == Some(ErrorPanic(IndexOutOfRange)) && r.partial.interfaces == cf.interfaces)
      && (|t| >= 6 ==>
            && r.partial.accessFlags == Uint16(t[0..2])
            && r.partial.thisClass == Uint16(t[2..4])
            && r.partial.superClass == Uint16(t[4..6])
            && (Uint16sRead(t[6..]).Ok? ==> r.partial.interfaces == Uint16sRead(t[6..]).value.value)
            && (Uint16sRead(t[6..]).Fail? ==> r.fault == Some(ErrorPanic(IndexOutOfRange))))
  {
    if |t| >= 2 {
      var cf1 := cf.(accessFlags := Uint16(t[..2]));
      assert ReadFrom(d, AccessFlags, t, cf) == ReadFrom(d, ThisClass, t[2..], cf1);
      if |t| >= 4 {
        assert t[2..][..2] == t[2..4] && t[2..][2..] == t[4..];
        var cf2 := cf1.(thisClass := Uint16(t[2..4]));
        assert ReadFrom(d, ThisClass, t[2..], cf1) == ReadFrom(d, SuperClass, t[4..], cf2);
        if |t| >= 6 {
          assert t[4..][..2] == t[4..6] && t[4..][2..] == t[6..];
          var cf3 := cf2.(superClass := Uint16(t[4..6]));
          assert ReadFrom(d, SuperClass, t[4..], cf2) == ReadFrom(d, Interfaces, t[6..], cf3);
          match Uint16sRead(t[6..])
          case Fail(_) =>
          case Ok(m) =>
            assert ReadFrom(d, Interfaces, t[6..], cf3) == ReadFrom(d, Fields, m.rest, cf3.(interfaces := m.value));
            ReadKeepsEarlierItems(d, Fields, m.rest, cf3.(interfaces := m.value));
        }
      }
    }
  }

  /** Access flags, this class, super class and interfaces come right after
      the constant pool (section 4.1 of the Java Virtual Machine
      Specification), and a class file cut short before them faults with an
      index out of range, leaving the interfaces nil. */
  lemma LinkageFollowsConstantPool(d: Decoders, s: seq<u8>)
    requires AfterConstantPool(d, s).Some?
    ensures var t := AfterConstantPool(d, s).value;
      var r := Decode(d, s);
      && (|t| < 6 ==> r.fault == Some(ErrorPanic(IndexOutOfRange)) && r.partial.interfaces == [])
      && (|t| >= 6 ==>
            && r.partial.accessFlags == Uint16(t[0..2])
            && r.partial.thisClass == Uint16(t[2..4])
            && r.partial.superClass == Uint16(t[4..6])
            && (Uint16sRead(t[6..]).Ok? ==> r.partial.interfaces == Uint16sRead(t[6..]).value.value)
            && (Uint16sRead(t[6..]).Fail? ==> r.fault == Some(ErrorPanic(IndexOutOfRange))))
  {
    DecodeReachesAccessFlags(d, s);
    LinkageRead(d, AfterConstantPool(d, s).value, AtConstantPool(d, s));
  }

  /** The decoder on bytes that encode the linkage items right after the
      constant pool returns them, whatever follows.  With an empty
      interface list the interfaces read back empty. */
  lemma {:induction false} LinkageRoundTrip(d: Decoders, s: seq<u8>, flags: u16, thisIndex: u16, superIndex: u16,
                                             ifaces: seq<u16>, tail: seq<u8>)
    requires |ifaces| < 0x1_0000
    requires AfterConstantPool(d, s) ==
      Some(EncodeU16(flags) + (EncodeU16(thisIndex) + (EncodeU16(superIndex) +
           (EncodeU16(|ifaces| as u16) + (EncodeU16s(ifaces) + tail)))))
    ensures var r := Decode(d, s).partial;
      r.accessFlags == flags && r.thisClass == thisIndex && r.superClass == superIndex && r.interfaces == ifaces
  {
    var rest := EncodeU16(|ifaces| as u16) + (EncodeU16s(ifaces) + tail);
    var t := AfterConstantPool(d, s).value;
    DropPrefix(EncodeU16(flags), EncodeU16(thisIndex) + (EncodeU16(superIndex) + rest));
    DropPrefix(EncodeU16(thisIndex), EncodeU16(superIndex) + rest);
    DropPrefix(EncodeU16(superIndex), rest);
    assert t[..2] == EncodeU16(flags);
    assert t[2..][..2] == EncodeU16(thisIndex);
    assert t[2..][2..][..2] == EncodeU16(superIndex);
    assert t[2..][2..][2..] == rest;
    assert t[0..2] == t[..2] && t[2..4] == t[2..][..2] && t[4..6] == t[2..][2..][..2] && t[6..] == rest;
    Uint16sRoundTrip(ifaces, tail);
    LinkageFollowsConstantPool(d, s);
  }

  /** A version check that succeeds stores its minor and major version, and no
      later read changes them, whether or not the constant pool and the items
      after it decode. */
  lemma MajorVersionIsStored(d: Decoders, s: seq<u8>)
    requires Advance(s, d.readAndCheckMagic(s)).Ok?
    requires var m1 := Advance(s, d.readAndCheckMagic(s)).value;
      Advance(m1.rest, d.readAndCheckVersion(m1.rest)).Ok?
    ensures var m1 := Advance(s, d.readAndCheckMagic(s)).value;
      var version := Advance(m1.rest, d.readAndCheckVersion(m1.rest)).value.value;
      Decode(d, s).partial.majorVersion == version.1 && Decode(d, s).partial.minorVersion == version.0
  {
    var m1 := Advance(s, d.readAndCheckMagic(s)).value;
    var m2 := Advance(m1.rest, d.readAndCheckVersion(m1.rest)).value;
    var cf := Zero.(minorVersion := m2.value.0, majorVersion := m2.value.1);
    assert Decode(d, s) == ReadFrom(d, Version, m1.rest, Zero);
    assert ReadFrom(d, Version, m1.rest, Zero) == ReadFrom(d, ConstantPoolItem, m2.rest, cf);
    ReadKeepsEarlierItems(d, ConstantPoolItem, m2.rest, cf);
  }

  /** One statement of `read` took the bytes from `s` to `s'` and the fields
      from `cf` to `cf'`: `read` from `item` on is then `read` from the next
      item on, unless the statement faulted or was the last one. */
  ghost predicate Stored(d: Decoders, item: Item, s: seq<u8>, cf: ClassFileValue,
                         s': seq<u8>, cf': ClassFileValue, fault: Option<Panic>)
  {
    ReadFrom(d, item, s, cf) ==
      if fault.None? && item != Attributes then ReadFrom(d, Successor(item), s', cf') else Decoded(cf', fault)
  }

  class ClassFile {
    var minorVersion: u16
    var majorVersion: u16
    var constantPool: ConstantPool
    var accessFlags: u16
    var thisClass: u16
    var superClass: u16
    var interfaces: seq<u16>
    var fields: seq<MemberInfo>
    var methods: seq<MemberInfo>
    var attributes: seq<AttributeInfo>

    function Value(): ClassFileValue
      reads this
    {
      ClassFileValue(minorVersion, majorVersion, constantPool, accessFlags, thisClass, superClass,
                     interfaces, fields, methods, attributes)
    }

    /** `&ClassFile{}` */
    constructor ()
      ensures Value() == Zero
    {
      minorVersion, majorVersion, constantPool := 0, 0, [];
      accessFlags, thisClass, superClass := 0, 0, 0;
      interfaces, fields, methods, attributes := [], [], [], [];
    }

    /** Runs the magic check on the cursor. */
    method ReadAndCheckMagic(d: Decoders, reader: Reader) returns (fault: Option<Panic>)
      requires reader.Valid()
      modifies this, reader
      ensures reader.Valid()
      ensures Stored(d, Magic, old(reader.data), old(Value()), reader.data, Value(), fault)
      ensures fault.None? <==> Advance(old(reader.data), d.readAndCheckMagic(old(reader.data))).Ok?
      ensures Value() == old(Value())
      ensures fault.None? ==> reader.data == Advance(old(reader.data), d.readAndCheckMagic(old(reader.data))).value.rest
      ensures fault.Some? ==> reader.data == old(reader.data)
    {
      var magic := reader.Apply(d.readAndCheckMagic);
      if magic.Fail? {
        return Some(magic.panic);
      }
      return None;
    }

    /** Runs the version check and stores minor and major version. */
    method ReadAndCheckVersion(d: Decoders, reader: Reader) returns (fault: Option<Panic>)
      requires reader.Valid()
      modifies this, reader
      ensures reader.Valid()
      ensures Stored(d, Version, old(reader.data), old(Value()), reader.data, Value(), fault)
      ensures fault.None? <==> Advance(old(reader.data), d.readAndCheckVersion(old(reader.data))).Ok?
      ensures fault.Some? ==> Value() == old(Value())
      ensures fault.None? ==> Value() == old(Value()).(minorVersion := Advance(old(reader.data), d.readAndCheckVersion(old(reader.data))).value.value.0, majorVersion := Advance(old(reader.data), d.readAndCheckVersion(old(reader.data))).value.value.1)
      ensures fault.None? ==> reader.data == Advance(old(reader.data), d.readAndCheckVersion(old(reader.data))).value.rest
      ensures fault.Some? ==> reader.data == old(reader.data)
    {
      var version := reader.Apply(d.readAndCheckVersion);
      if version.Fail? {
        return Some(version.panic);
      }
      minorVersion, majorVersion := version.value.0, version.value.1;
      return None;
    }

    /** Reads and stores the constant pool. */
    method ReadConstantPool(d: Decoders, reader: Reader) returns (fault: Option<Panic>)
      requires reader.Valid()
      modifies this, reader
      ensures reader.Valid()
      ensures Stored(d, ConstantPoolItem, old(reader.data), old(Value()), reader.data, Value(), fault)
      ensures fault.None? <==> Advance(old(reader.data), d.readConstantPool(old(reader.data))).Ok?
      ensures fault.Some? ==> Value() == old(Value())
      ensures fault.None? ==> Value() == old(Value()).(constantPool := Advance(old(reader.data), d.readConstantPool(old(reader.data))).value.value)
      ensures fault.None? ==> reader.data == Advance(old(reader.data), d.readConstantPool(old(reader.data))).value.rest
      ensures fault.Some? ==> reader.data == old(reader.data)
    {
      var pool := reader.Apply(d.readConstantPool);
      if pool.Fail? {
        return Some(pool.panic);
      }
      constantPool := pool.value;
      return None;
    }

    /** Reads and stores the access flags. */
    method ReadAccessFlags(d: Decoders, reader: Reader) returns (fault: Option<Panic>)
      requires reader.Valid()
      modifies this, reader
      ensures reader.Valid()
      ensures Stored(d, AccessFlags, old(reader.data), old(Value()), reader.data, Value(), fault)
      ensures fault.None? <==> Uint16Read(old(reader.data)).Ok?
      ensures fault.Some? ==> Value() == old(Value())
      ensures fault.None? ==> Value() == old(Value()).(accessFlags := Uint16Read(old(reader.data)).value.value)
      ensures fault.None? ==> reader.data == Uint16Read(old(reader.data)).value.rest
      ensures fault.Some? ==> reader.data == old(reader.data)
    {
      var flags := reader.ReadUint16();
      if flags.Fail? {
        return Some(flags.panic);
      }
      accessFlags := flags.value;
      return None;
    }

    /** Reads and stores the this-class index. */
    method ReadThisClass(d: Decoders, reader: Reader) returns (fault: Option<Panic>)
      requires reader.Valid()
      modifies this, reader
      ensures reader.Valid()
      ensures Stored(d, ThisClass, old(reader.data), old(Value()), reader.data, Value(), fault)
      ensures fault.None? <==> Uint16Read(old(reader.data)).Ok?
      ensures fault.Some? ==> Value() == old(Value())
      ensures fault.None? ==> Value() == old(Value()).(thisClass := Uint16Read(old(reader.data)).value.value)
      ensures fault.None? ==> reader.data == Uint16Read(old(reader.data)).value.rest
      ensures fault.Some? ==> reader.data == old(reader.data)
    {
      var thisIndex := reader.ReadUint16();
      if thisIndex.Fail? {
        return Some(thisIndex.panic);
      }
      thisClass := thisIndex.value;
      return None;
    }

    /** Reads and stores the super-class index. */
    method ReadSuperClass(d: Decoders, reader: Reader) returns (fault: Option<Panic>)
      requires reader.Valid()
      modifies this, reader
      ensures reader.Valid()
      ensures Stored(d, SuperClass, old(reader.data), old(Value()), reader.data, Value(), fault)
      ensures fault.None? <==> Uint16Read(old(reader.data)).Ok?
      ensures fault.Some? ==> Value() == old(Value())
      ensures fault.None? ==> Value() == old(Value()).(superClass := Uint16Read(old(reader.data)).value.value)
      ensures fault.None? ==> reader.data == Uint16Read(old(reader.data)).value.rest
      ensures fault.Some? ==> reader.data == old(reader.data)
    {
      var superIndex := reader.ReadUint16();
      if superIndex.Fail? {
        return Some(superIndex.panic);
      }
      superClass := superIndex.value;
      return None;
    }

    /** Reads and stores the interface index table. */
    method ReadInterfaces(d: Decoders, reader: Reader) returns (fault: Option<Panic>)
      requires reader.Valid()
      modifies this, reader
      ensures reader.Valid()
      ensures Stored(d, Interfaces, old(reader.data), old(Value()), reader.data, Value(), fault)
      ensures fault.None? <==> Uint16sRead(old(reader.data)).Ok?
      ensures fault.Some? ==> Value() == old(Value())
      ensures fault.None? ==> Value() == old(Value()).(interfaces := Uint16sRead(old(reader.data)).value.value)
      ensures fault.None? ==> reader.data == Uint16sRead(old(reader.data)).value.rest
      ensures fault.Some? ==> reader.data == OddByte(old(reader.data))
    {
      var ifaces := reader.ReadUint16s();
      if ifaces.Fail? {
        return Some(ifaces.panic);
      }
      interfaces := ifaces.value;
      return None;
    }

    /** Reads and stores the field table. */
    method ReadFields(d: Decoders, reader: Reader) returns (fault: Option<Panic>)
      requires reader.Valid()
      modifies this, reader
      ensures reader.Valid()
      ensures Stored(d, Fields, old(reader.data), old(Value()), reader.data, Value(), fault)
      ensures fault.None? <==> Advance(old(reader.data), d.readMembers(old(constantPool))(old(reader.data))).Ok?
      ensures fault.Some? ==> Value() == old(Value())
      ensures fault.None? ==> Value() == old(Value()).(fields := Advance(old(reader.data), d.readMembers(old(constantPool))(old(reader.data))).value.value)
      ensures fault.None? ==> reader.data == Advance(old(reader.data), d.readMembers(old(constantPool))(old(reader.data))).value.rest
      ensures fault.Some? ==> reader.data == old(reader.data)
    {
      var fs := reader.Apply(d.readMembers(constantPool));
      if fs.Fail? {
        return Some(fs.panic);
      }
      fields := fs.value;
      return None;
    }

    /** Reads and stores the method table. */
    method ReadMethods(d: Decoders, reader: Reader) returns (fault: Option<Panic>)
      requires reader.Valid()
      modifies this, reader
      ensures reader.Valid()
      ensures Stored(d, Methods, old(reader.data), old(Value()), reader.data, Value(), fault)
      ensures fault.None? <==> Advance(old(reader.data), d.readMembers(old(constantPool))(old(reader.data))).Ok?
      ensures fault.Some? ==> Value() == old(Value())
      ensures fault.None? ==> Value() == old(Value()).(methods := Advance(old(reader.data), d.readMembers(old(constantPool))(old(reader.data))).value.value)
      ensures fault.None? ==> reader.data == Advance(old(reader.data), d.readMembers(old(constantPool))(old(reader.data))).value.rest
      ensures fault.Some? ==> reader.data == old(reader.data)
    {
      var ms := reader.Apply(d.readMembers(constantPool));
      if ms.Fail? {
        return Some(ms.panic);
      }
      methods := ms.value;
      return None;
    }

    /** Reads and stores the attribute table. */
    method ReadAttributes(d: Decoders, reader: Reader) returns (fault: Option<Panic>)
      requires reader.Valid()
      modifies this, reader
      ensures reader.Valid()
      ensures Stored(d, Attributes, old(reader.data), old(Value()), reader.data, Value(), fault)
      ensures fault.None? <==> Advance(old(reader.data), d.readAttributes(old(constantPool))(old(reader.data))).Ok?
      ensures fault.Some? ==> Value() == old(Value())
      ensures fault.None? ==> Value() == old(Value()).(attributes := Advance(old(reader.data), d.readAttributes(old(constantPool))(old(reader.data))).value.value)
      ensures fault.None? ==> reader.data == Advance(old(reader.data), d.readAttributes(old(constantPool))(old(reader.data))).value.rest
      ensures fault.Some? ==> reader.data == old(reader.data)
    {
      var attrs := reader.Apply(d.readAttributes(constantPool));
      if attrs.Fail? {
        return Some(attrs.panic);
      }
      attributes := attrs.value;
      return None;
    }

    /** Reads the items in their fixed order from `reader`, storing each as
        it is read.  A fault returns the panic and leaves the fields read so
        far in place. */
    method Read(d: Decoders, reader: Reader) returns (fault: Option<Panic>)
      requires reader.Valid()
      modifies this, reader
      ensures reader.Valid()
      ensures Decoded(Value(), fault) == ReadFrom(d, Magic, old(reader.data), old(Value()))
    {
      fault := ReadFromItem(d, Magic, reader);
    }

    /** The statement of `read` that reads `item`. */
    method ReadItem(d: Decoders, item: Item, reader: Reader) returns (fault: Option<Panic>)
      requires reader.Valid()
      modifies this, reader
      ensures reader.Valid()
      ensures Stored(d, item, old(reader.data), old(Value()), reader.data, Value(), fault)
    {
      match item {
        case Magic => fault := ReadAndCheckMagic(d, reader);
        case Version => fault := ReadAndCheckVersion(d, reader);
        case ConstantPoolItem => fault := ReadConstantPool(d, reader);
        case AccessFlags => fault := ReadAccessFlags(d, reader);
        case ThisClass => fault := ReadThisClass(d, reader);
        case SuperClass => fault := ReadSuperClass(d, reader);
        case Interfaces => fault := ReadInterfaces(d, reader);
        case Fields => fault := ReadFields(d, reader);
        case Methods => fault := ReadMethods(d, reader);
        case Attributes => fault := ReadAttributes(d, reader);
      }
    }

    /** `read` from `item` on: the item's own statement, then the next. */
    method ReadFromItem(d: Decoders, item: Item, reader: Reader) returns (fault: Option<Panic>)
      requires reader.Valid()
      modifies this, reader
      ensures reader.Valid()
      ensures Decoded(Value(), fault) == ReadFrom(d, item, old(reader.data), old(Value()))
      decreases Remaining(item)
    {
      fault := ReadItem(d, item, reader);
      if fault.None? && item != Attributes {
        fault := ReadFromItem(d, Successor(item), reader);
      }
    }

    function MajorVersion(): (v: u16)
      reads this
      ensures v == Value().majorVersion
    {
      majorVersion
    }

    /** The name of this class, looked up in the constant pool. */
    function ClassName(d: Decoders): (name: string)
      reads this
      ensures name == d.getClassName(Value().constantPool, Value().thisClass)
    {
      d.getClassName(constantPool, thisClass)
    }

    /** The name of the superclass, or "" when the index is 0 (only
        java.lang.Object has no superclass). */
    function SuperClassName(d: Decoders): (name: string)
      reads this
      ensures superClass == 0 ==> name == ""
      ensures superClass != 0 ==> name == d.getClassName(constantPool, superClass)
    {
      if superClass > 0 then d.getClassName(constantPool, superClass) else ""
    }

    /** The interface names, looked up one by one in table order. */
    method InterfaceNames(d: Decoders) returns (names: array<string>)
      ensures fresh(names)
      ensures names.Length == |interfaces|
      ensures forall i :: 0 <= i < names.Length ==> names[i] == d.getClassName(constantPool, interfaces[i])
    {
      names := new string[|interfaces|];
      for i := 0 to |interfaces|
        invariant forall j :: 0 <= j < i ==> names[j] == d.getClassName(constantPool, interfaces[j])
      {
        names[i] := d.getClassName(constantPool, interfaces[i]);
      }
    }
  }

  /** Decodes `classData`.  The struct is always returned, filled as far as
      decoding got; every fault is recovered into the returned error, a
      non-error panic value being wrapped into a new error. */
  method Parse(d: Decoders, classData: seq<u8>) returns (cf: ClassFile, err: Option<Error>)
    ensures fresh(cf)
    ensures cf.Value() == Decode(d, classData).partial
    ensures err.None? <==> Decode(d, classData).fault.None?
    ensures err.Some? ==> err.value == Recovered(Decode(d, classData).fault.value)
  {
    var cr := new Reader(classData);
    cf := new ClassFile();
    var fault := cf.Read(d, cr);
    err := match fault
      case None => None
      case Some(p) => Some(Recovered(p));
  }
}
