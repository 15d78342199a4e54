/**
 Event flags in the game's memory (crates/bb-archipelago/src/event_flags.rs:318-397).

 A flag's group is looked up in a binary search tree of nodes in memory; the bit
 lies in the bank that node names, most significant bit first.  Every read may
 fail, as a read of another process may.
 */
module EventFlags {
  import opened Wrappers
  import opened Arithmetic

  const MANAGER_ROOT: int := 0x0553_B100
  const GROUP_DIVISOR: int := 0x1C
  const PACKED_STRIDE: int := 0x20
  const PACKED_BASE: int := 0x28
  const GROUP_TREE: int := 0x38
  const NODE_RIGHT: int := 0x10
  const NODE_NIL: int := 0x19
  const NODE_KEY: int := 0x20
  const NODE_STORAGE_TYPE: int := 0x28
  const NODE_STORAGE: int := 0x30
  const NODE_SIZE: nat := 0x38
  const MANAGER_SIZE: nat := 0x24
  const MAX_STEPS: nat := 512

  /** The readable bytes of the process. */
  type Memory = map<int, bv8>

  datatype Error =
    | Unreadable
    | NoManager
    | ZeroDivisor
    | NoTree
    | NullNode
    | Absent
    | UnsupportedStorage
    | NoStorage
    | DidNotStick

  /** Where a flag lives: a byte and a bit in it. */
  datatype Place = Place(address: int, mask: bv8)

  // ------------------------------------------------------------ raw memory

  /** A little-endian word of `size` bytes. */
  function ReadWord(mem: Memory, address: int, size: nat): Option<nat>
    decreases mem, size
  {
    if size == 0 then Some(0)
    else if address !in mem then None
    else
      match ReadWord(mem, address + 1, size - 1)
      case Some(rest) => Some(mem[address] as nat + 0x100 * rest)
      case None => None
  }

  predicate Inside(address: int, size: nat, a: int) {
    address <= a < address + size
  }

  /** A byte stored outside a word does not change it. */
  lemma {:induction false} SameWord(mem: Memory, a: int, v: bv8, address: int, size: nat)
    requires a in mem && !Inside(address, size, a)
    ensures ReadWord(mem[a := v], address, size) == ReadWord(mem, address, size)
    decreases size
  {
    if size > 0 {
      SameWord(mem, a, v, address + 1, size - 1);
    }
  }

  // --------------------------------------------------------------- the bits

  /** `1 << (7 - bit)`: the most significant bit comes first. */
  function Mask(bit: nat): bv8
    requires bit < 8
  {
    if bit == 0 then 0x80 else if bit == 1 then 0x40 else if bit == 2 then 0x20 else if bit == 3 then 0x10
    else if bit == 4 then 0x08 else if bit == 5 then 0x04 else if bit == 6 then 0x02 else 0x01
  }

  function Stored(before: bv8, mask: bv8, enabled: bool): bv8 {
    if enabled then before | mask else before & !mask
  }

  predicate IsSet(value: bv8, mask: bv8) {
    value & mask != 0
  }

  /** Storing one bit sets that bit and no other. */
  lemma StoredBit(before: bv8, i: nat, j: nat, enabled: bool)
    requires i < 8 && j < 8
    ensures IsSet(Stored(before, Mask(i), enabled), Mask(j)) == if i == j then enabled else IsSet(before, Mask(j))
  {
  }

  // -------------------------------------------------------------- the lookup

  /** Follows links down from `link`, remembering the last node at or over `group`. */
  function Walk(mem: Memory, group: nat, candidate: int, link: int, steps: nat): Result<int, Error>
    decreases mem, steps
  {
    if steps == 0 then Ok(candidate)
    else
      match ReadWord(mem, link, 8)
      case None => Err(Unreadable)
      case Some(node) =>
        if node == 0 then Err(NullNode)
        else
          match ReadWord(mem, node + NODE_NIL, 1)
          case None => Err(Unreadable)
          case Some(nil) =>
            if nil != 0 then Ok(candidate)
            else
              match ReadWord(mem, node + NODE_KEY, 4)
              case None => Err(Unreadable)
              case Some(key) =>
                if key < group then Walk(mem, group, candidate, node + NODE_RIGHT, steps - 1)
                else Walk(mem, group, node, node, steps - 1)
  }

  /** The bank a node names: a direct pointer, or an index into packed storage. */
  function Storage(mem: Memory, packedBase: int, stride: nat, node: int): Result<int, Error> {
    match ReadWord(mem, node + NODE_STORAGE_TYPE, 4)
    case None => Err(Unreadable)
    case Some(kind) =>
      if kind == 2 then
        match ReadWord(mem, node + NODE_STORAGE, 8)
        case None => Err(Unreadable)
        case Some(bank) => if bank == 0 then Err(NoStorage) else Ok(bank)
      else if kind == 1 then
        match ReadWord(mem, node + NODE_STORAGE, 4)
        case None => Err(Unreadable)
        case Some(index) =>
          var bank := packedBase + index * stride;
          if bank == 0 then Err(NoStorage) else Ok(bank)
      else Err(UnsupportedStorage)
  }

  datatype Manager = Manager(divisor: nat, stride: nat, packedBase: nat, sentinel: nat)

  function ReadManager(mem: Memory, base: int): (r: Result<Manager, Error>)
    ensures r.Ok? ==> r.value.divisor > 0
  {
    match ReadWord(mem, base + MANAGER_ROOT, 8)
    case None => Err(Unreadable)
    case Some(manager) =>
      if manager == 0 then Err(NoManager)
      else
        match ReadWord(mem, manager + GROUP_DIVISOR, 4)
        case None => Err(Unreadable)
        case Some(divisor) =>
          if divisor == 0 then Err(ZeroDivisor)
          else
            match (ReadWord(mem, manager + PACKED_STRIDE, 4), ReadWord(mem, manager + PACKED_BASE, 8),
                   ReadWord(mem, manager + GROUP_TREE, 8))
            case (Some(stride), Some(packedBase), Some(sentinel)) =>
              if sentinel == 0 then Err(NoTree) else Ok(Manager(divisor, stride, packedBase, sentinel))
            case _ => Err(Unreadable)
  }

  /** The bank of `group`, from the node the walk ends on. */
  function FindBank(mem: Memory, m: Manager, group: nat): Result<int, Error> {
    match Walk(mem, group, m.sentinel, m.sentinel + 8, MAX_STEPS)
    case Err(e) => Err(e)
    case Ok(candidate) =>
      if candidate == m.sentinel then Err(Absent)
      else
        match ReadWord(mem, candidate + NODE_KEY, 4)
        case None => Err(Unreadable)
        case Some(key) => if key != group then Err(Absent) else Storage(mem, m.packedBase, m.stride, candidate)
  }

  function PlaceIn(bank: int, suffix: nat): Place {
    Place(bank + suffix / 8, Mask(suffix % 8))
  }

  function PlaceOf(bank: Result<int, Error>, suffix: nat): Result<Place, Error> {
    match bank
    case Err(e) => Err(e)
    case Ok(b) => Ok(PlaceIn(b, suffix))
  }

  function Locate(mem: Memory, base: int, flag: nat): Result<Place, Error> {
    match ReadManager(mem, base)
    case Err(e) => Err(e)
    case Ok(m) => PlaceOf(FindBank(mem, m, Quotient(flag, m.divisor)), Remainder(flag, m.divisor))
  }

  function ReadPlace(mem: Memory, located: Result<Place, Error>): Result<bool, Error> {
    match located
    case Err(e) => Err(e)
    case Ok(place) => if place.address in mem then Ok(IsSet(mem[place.address], place.mask)) else Err(Unreadable)
  }

  function ReadFlag(mem: Memory, base: int, flag: nat): Result<bool, Error> {
    ReadPlace(mem, Locate(mem, base, flag))
  }

  /** Memory and outcome after a write. */
  function WriteFlag(mem: Memory, base: int, flag: nat, enabled: bool): (Memory, Result<(), Error>) {
    match Locate(mem, base, flag)
    case Err(e) => (mem, Err(e))
    case Ok(place) =>
      if place.address !in mem then (mem, Err(Unreadable))
      else
        var mem' := mem[place.address := Stored(mem[place.address], place.mask, enabled)];
        match ReadFlag(mem', base, flag)
        case Err(e) => (mem', Err(e))
        case Ok(value) => (mem', if value == enabled then Ok(()) else Err(DidNotStick))
  }

  /** On any memory at all, a successful lookup lands on a node whose key is the
      flag's group. */
  lemma LocateLandsOnGroup(mem: Memory, base: int, flag: nat)
    requires Locate(mem, base, flag).Ok?
    ensures var m := ReadManager(mem, base).value;
            exists node, bank ::
              && ReadWord(mem, node + NODE_KEY, 4) == Some(Quotient(flag, m.divisor))
              && Storage(mem, m.packedBase, m.stride, node) == Ok(bank)
              && Locate(mem, base, flag) == Ok(PlaceIn(bank, Remainder(flag, m.divisor)))
  {
    var m := ReadManager(mem, base).value;
    var node := Walk(mem, Quotient(flag, m.divisor), m.sentinel, m.sentinel + 8, MAX_STEPS).value;
    assert Storage(mem, m.packedBase, m.stride, node).Ok?;
  }

  // ---------------------------------------------------------- the group tree

  /** The tree of groups as memory holds it.  A leaf is a node marked nil; `bank`
      is what the node's storage fields come to. */
  datatype Tree =
    | Leaf(nil: int)
    | Node(address: int, key: nat, bank: Result<int, Error>, left: Tree, right: Tree)

  function Height(t: Tree): nat {
    if t.Leaf? then 0 else 1 + Max(Height(t.left), Height(t.right))
  }

  predicate HasKey(t: Tree, key: int) {
    t.Node? && (t.key == key || HasKey(t.left, key) || HasKey(t.right, key))
  }

  ghost predicate Ordered(t: Tree) {
    t.Node? ==>
      && Ordered(t.left) && Ordered(t.right)
      && (forall k :: HasKey(t.left, k) ==> k < t.key)
      && (forall k :: HasKey(t.right, k) ==> t.key < k)
  }

  /** The bank of a group, looked up without using the order. */
  function BankOf(t: Tree, group: nat): Result<int, Error> {
    if t.Leaf? then Err(Absent)
    else if t.key == group then t.bank
    else if HasKey(t.left, group) then BankOf(t.left, group)
    else BankOf(t.right, group)
  }

  /** The memory holds `t` behind the link at `link`. */
  predicate Holds(mem: Memory, m: Manager, link: int, t: Tree)
    decreases t
  {
    match t
    case Leaf(nil) =>
      && nil != 0 && ReadWord(mem, link, 8) == Some(nil)
      && ReadWord(mem, nil + NODE_NIL, 1).Some? && ReadWord(mem, nil + NODE_NIL, 1) != Some(0)
    case Node(address, key, bank, left, right) =>
      && address != 0 && address != m.sentinel && ReadWord(mem, link, 8) == Some(address)
      && ReadWord(mem, address + NODE_NIL, 1) == Some(0)
      && ReadWord(mem, address + NODE_KEY, 4) == Some(key)
      && bank == Storage(mem, m.packedBase, m.stride, address)
      && Holds(mem, m, address, left) && Holds(mem, m, address + NODE_RIGHT, right)
  }

  /** The lowest node at or over `group`, or `candidate` when there is none. */
  function LowerBound(t: Tree, group: nat, candidate: int): int {
    if t.Leaf? then candidate
    else if t.key < group then LowerBound(t.right, group, candidate)
    else LowerBound(t.left, group, t.address)
  }

  /** On a tree no higher than the step limit the walk finds the lower bound. */
  lemma {:induction false} WalkFindsLowerBound(mem: Memory, m: Manager, group: nat, candidate: int, link: int, t: Tree, steps: nat)
    requires Holds(mem, m, link, t) && Height(t) <= steps
    ensures Walk(mem, group, candidate, link, steps) == Ok(LowerBound(t, group, candidate))
    decreases steps
  {
    if t.Node? {
      if t.key < group {
        WalkFindsLowerBound(mem, m, group, candidate, t.address + NODE_RIGHT, t.right, steps - 1);
      } else {
        WalkFindsLowerBound(mem, m, group, t.address, t.address, t.left, steps - 1);
      }
    }
  }

  /** A node of the tree, as memory holds it. */
  predicate IsNode(mem: Memory, m: Manager, address: int, key: nat, bank: Result<int, Error>) {
    && address != m.sentinel
    && ReadWord(mem, address + NODE_KEY, 4) == Some(key)
    && bank == Storage(mem, m.packedBase, m.stride, address)
  }

  /** The lower bound is the group's own node when the group is present. */
  lemma {:induction false} LowerBoundIsGroup(mem: Memory, m: Manager, link: int, t: Tree, group: nat, candidate: int)
    requires Holds(mem, m, link, t) && Ordered(t)
    ensures HasKey(t, group) ==> IsNode(mem, m, LowerBound(t, group, candidate), group, BankOf(t, group))
    ensures !HasKey(t, group) ==> LowerBound(t, group, candidate) == candidate || KeyedAbove(mem, m, LowerBound(t, group, candidate), group)
    decreases t
  {
    if t.Node? {
      if t.key < group {
        assert !HasKey(t.left, group);
        LowerBoundIsGroup(mem, m, t.address + NODE_RIGHT, t.right, group, candidate);
      } else {
        assert !HasKey(t.right, group);
        LowerBoundIsGroup(mem, m, t.address, t.left, group, t.address);
        if t.key == group {
          assert !HasKey(t.left, group);
          NothingAbove(mem, m, t.address, t.left, group, t.address);
        }
      }
    }
  }

  predicate KeyedAbove(mem: Memory, m: Manager, address: int, group: nat) {
    address != m.sentinel && ReadWord(mem, address + NODE_KEY, 4).Some? && ReadWord(mem, address + NODE_KEY, 4).value > group
  }

  lemma {:induction false} NothingAbove(mem: Memory, m: Manager, link: int, t: Tree, group: nat, candidate: int)
    requires Holds(mem, m, link, t) && forall k :: HasKey(t, k) ==> k < group
    ensures LowerBound(t, group, candidate) == candidate
    decreases t
  {
    if t.Node? {
      assert HasKey(t, t.key);
      assert forall k :: HasKey(t.right, k) ==> HasKey(t, k);
      NothingAbove(mem, m, t.address + NODE_RIGHT, t.right, group, candidate);
    }
  }

  /** The whole structure: manager fields, root link and a search tree no higher
      than the step limit. */
  ghost predicate Describes(mem: Memory, base: int, m: Manager, t: Tree) {
    && ReadManager(mem, base) == Ok(m)
    && Holds(mem, m, m.sentinel + 8, t)
    && Ordered(t) && Height(t) <= MAX_STEPS
  }

  /** Where the tree says bit `suffix` of a group lives. */
  function Home(t: Tree, group: nat, suffix: nat): Result<Place, Error> {
    PlaceOf(BankOf(t, group), suffix)
  }

  /** On a described memory the bank of a group is the tree's own answer. */
  lemma FindBankIsBankOf(mem: Memory, m: Manager, t: Tree, group: nat)
    requires Holds(mem, m, m.sentinel + 8, t) && Ordered(t) && Height(t) <= MAX_STEPS
    ensures FindBank(mem, m, group) == BankOf(t, group)
    ensures BankOf(t, group) == Err(Absent) <==> !HasKey(t, group)
  {
    WalkFindsLowerBound(mem, m, group, m.sentinel, m.sentinel + 8, t, MAX_STEPS);
    LowerBoundIsGroup(mem, m, m.sentinel + 8, t, group, m.sentinel);
    AbsentIsNoKey(mem, m, m.sentinel + 8, t, group);
  }

  /** On a described memory a lookup succeeds exactly when the group is present with
      supported, non-null storage, and says why when it is not. */
  lemma LocateIsBankOf(mem: Memory, base: int, m: Manager, t: Tree, flag: nat)
    requires Describes(mem, base, m, t)
    ensures m.divisor > 0
    ensures Locate(mem, base, flag) == Home(t, Quotient(flag, m.divisor), Remainder(flag, m.divisor))
    ensures BankOf(t, Quotient(flag, m.divisor)) == Err(Absent) <==> !HasKey(t, Quotient(flag, m.divisor))
  {
    FindBankIsBankOf(mem, m, t, Quotient(flag, m.divisor));
  }

  lemma {:induction false} AbsentIsNoKey(mem: Memory, m: Manager, link: int, t: Tree, group: nat)
    requires Holds(mem, m, link, t)
    ensures BankOf(t, group) == Err(Absent) <==> !HasKey(t, group)
    decreases t
  {
    if t.Node? {
      AbsentIsNoKey(mem, m, t.address, t.left, group);
      AbsentIsNoKey(mem, m, t.address + NODE_RIGHT, t.right, group);
    }
  }

  // ------------------------------------------------------------ writing flags

  /** The structure is read from `a`. */
  predicate Touches(mem: Memory, base: int, m: Manager, t: Tree, a: int)
    requires ReadManager(mem, base) == Ok(m)
  {
    var manager := ReadWord(mem, base + MANAGER_ROOT, 8).value;
    || Inside(base + MANAGER_ROOT, 8, a)
    || Inside(manager + GROUP_DIVISOR, MANAGER_SIZE, a)
    || Inside(m.sentinel + 8, 8, a)
    || TreeTouches(t, a)
  }

  predicate TreeTouches(t: Tree, a: int) {
    match t
    case Leaf(nil) => a == nil + NODE_NIL
    case Node(address, _, _, left, right) => Inside(address, NODE_SIZE, a) || TreeTouches(left, a) || TreeTouches(right, a)
  }

  /** `a` is a byte of the bank at `bank`. */
  predicate InBank(m: Manager, bank: int, a: int) {
    Inside(bank, (m.divisor + 7) / 8, a)
  }

  /** Banks keep off the structure and off each other. */
  ghost predicate BanksApart(mem: Memory, base: int, m: Manager, t: Tree)
    requires ReadManager(mem, base) == Ok(m)
  {
    OffStructure(mem, base, m, t) && Disjoint(m, t)
  }

  ghost predicate OffStructure(mem: Memory, base: int, m: Manager, t: Tree)
    requires ReadManager(mem, base) == Ok(m)
  {
    forall g: nat, a :: BankOf(t, g).Ok? && InBank(m, BankOf(t, g).value, a) ==> !Touches(mem, base, m, t, a)
  }

  ghost predicate Disjoint(m: Manager, t: Tree) {
    forall g: nat, h: nat, a ::
      BankOf(t, g).Ok? && BankOf(t, h).Ok? && InBank(m, BankOf(t, g).value, a) && InBank(m, BankOf(t, h).value, a) ==> g == h
  }

  /** Packed banks with different indices are apart when a group fits the stride. */
  lemma PackedBanksAreApart(m: Manager, i: nat, j: nat, a: int)
    requires m.divisor <= 8 * m.stride && i != j
    ensures !(InBank(m, m.packedBase + i * m.stride, a) && InBank(m, m.packedBase + j * m.stride, a))
  {
    if i < j {
      MultiplesGrow(i, j, m.stride);
    } else {
      MultiplesGrow(j, i, m.stride);
    }
  }

  lemma {:induction false} SameTree(mem: Memory, m: Manager, link: int, t: Tree, a: int, v: bv8)
    requires a in mem && Holds(mem, m, link, t) && !Inside(link, 8, a) && !TreeTouches(t, a)
    ensures Holds(mem[a := v], m, link, t)
    decreases t
  {
    SameWord(mem, a, v, link, 8);
    match t
    case Leaf(nil) =>
      SameWord(mem, a, v, nil + NODE_NIL, 1);
    case Node(address, key, bank, left, right) =>
      SameNode(mem, m, address, a, v);
      SameTree(mem, m, address, left, a, v);
      SameTree(mem, m, address + NODE_RIGHT, right, a, v);
  }

  lemma SameNode(mem: Memory, m: Manager, address: int, a: int, v: bv8)
    requires a in mem && !Inside(address, NODE_SIZE, a)
    ensures ReadWord(mem[a := v], address + NODE_NIL, 1) == ReadWord(mem, address + NODE_NIL, 1)
    ensures ReadWord(mem[a := v], address + NODE_KEY, 4) == ReadWord(mem, address + NODE_KEY, 4)
    ensures Storage(mem[a := v], m.packedBase, m.stride, address) == Storage(mem, m.packedBase, m.stride, address)
  {
    SameWord(mem, a, v, address + NODE_NIL, 1);
    SameWord(mem, a, v, address + NODE_KEY, 4);
    SameWord(mem, a, v, address + NODE_STORAGE_TYPE, 4);
    SameWord(mem, a, v, address + NODE_STORAGE, 4);
    SameWord(mem, a, v, address + NODE_STORAGE, 8);
  }

  lemma SameManager(mem: Memory, base: int, m: Manager, t: Tree, a: int, v: bv8)
    requires ReadManager(mem, base) == Ok(m) && a in mem && !Touches(mem, base, m, t, a)
    ensures ReadWord(mem[a := v], base + MANAGER_ROOT, 8) == ReadWord(mem, base + MANAGER_ROOT, 8)
    ensures ReadManager(mem[a := v], base) == Ok(m)
  {
    var manager := ReadWord(mem, base + MANAGER_ROOT, 8).value;
    SameWord(mem, a, v, base + MANAGER_ROOT, 8);
    SameWord(mem, a, v, manager + GROUP_DIVISOR, 4);
    SameWord(mem, a, v, manager + PACKED_STRIDE, 4);
    SameWord(mem, a, v, manager + PACKED_BASE, 8);
    SameWord(mem, a, v, manager + GROUP_TREE, 8);
  }

  lemma SameTouches(mem: Memory, base: int, m: Manager, t: Tree, a: int, v: bv8)
    requires ReadManager(mem, base) == Ok(m) && a in mem && !Touches(mem, base, m, t, a)
    requires OffStructure(mem, base, m, t)
    ensures ReadManager(mem[a := v], base) == Ok(m) && OffStructure(mem[a := v], base, m, t)
  {
    SameManager(mem, base, m, t, a, v);
    forall g: nat, b | BankOf(t, g).Ok? && InBank(m, BankOf(t, g).value, b)
      ensures !Touches(mem[a := v], base, m, t, b)
    {
      assert !Touches(mem, base, m, t, b);
    }
  }

  /** A byte stored in a bank leaves the structure as it was. */
  lemma SameStructure(mem: Memory, base: int, m: Manager, t: Tree, a: int, v: bv8)
    requires Describes(mem, base, m, t) && BanksApart(mem, base, m, t)
    requires a in mem && !Touches(mem, base, m, t, a)
    ensures Describes(mem[a := v], base, m, t) && BanksApart(mem[a := v], base, m, t)
  {
    SameManager(mem, base, m, t, a, v);
    SameTree(mem, m, m.sentinel + 8, t, a, v);
    SameTouches(mem, base, m, t, a, v);
  }

  lemma HomeIsInBank(m: Manager, t: Tree, g: nat, i: nat)
    requires i < m.divisor && Home(t, g, i).Ok?
    ensures BankOf(t, g).Ok? && InBank(m, BankOf(t, g).value, Home(t, g, i).value.address)
  {
    InBankOfSuffix(i, m.divisor);
  }

  lemma InBankOfSuffix(suffix: nat, divisor: nat)
    requires suffix < divisor
    ensures suffix / 8 < (divisor + 7) / 8
  {
  }

  /** Two flags never share a bit. */
  lemma HomesDiffer(m: Manager, t: Tree, g: nat, i: nat, h: nat, j: nat)
    requires Disjoint(m, t) && i < m.divisor && j < m.divisor && Home(t, g, i).Ok? && Home(t, h, j).Ok?
    requires Home(t, g, i).value.address == Home(t, h, j).value.address && i % 8 == j % 8
    ensures g == h && i == j
  {
    HomeIsInBank(m, t, g, i);
    HomeIsInBank(m, t, h, j);
    assert g == h;
  }

  /** Storing one flag's bit in its byte stores that flag and no other. */
  lemma StoredFlag(mem: Memory, m: Manager, t: Tree, g: nat, i: nat, enabled: bool, h: nat, j: nat)
    requires Disjoint(m, t) && i < m.divisor && j < m.divisor && Home(t, g, i).Ok? && Home(t, g, i).value.address in mem
    ensures var p := Home(t, g, i).value;
            ReadPlace(mem[p.address := Stored(mem[p.address], p.mask, enabled)], Home(t, h, j))
            == if g == h && i == j then Ok(enabled) else ReadPlace(mem, Home(t, h, j))
  {
    var p, q := Home(t, g, i), Home(t, h, j);
    if q.Ok? && q.value.address == p.value.address {
      StoredBit(mem[p.value.address], i % 8, j % 8, enabled);
      if i % 8 == j % 8 {
        HomesDiffer(m, t, g, i, h, j);
      }
    }
  }

  /** A bit stored in a bank keeps the structure, and every lookup with it. */
  lemma StoredKeepsLookups(mem: Memory, base: int, m: Manager, t: Tree, p: Place, v: bv8, other: nat)
    requires Describes(mem, base, m, t) && BanksApart(mem, base, m, t)
    requires p.address in mem && !Touches(mem, base, m, t, p.address)
    ensures var mem' := mem[p.address := v];
            && Describes(mem', base, m, t) && BanksApart(mem', base, m, t)
            && Locate(mem', base, other) == Locate(mem, base, other)
  {
    SameStructure(mem, base, m, t, p.address, v);
    LocateIsBankOf(mem, base, m, t, other);
    LocateIsBankOf(mem[p.address := v], base, m, t, other);
  }

  /** A flag found in mapped memory is stored, and no other flag changes. */
  lemma StoredPresentFlag(mem: Memory, base: int, m: Manager, t: Tree, flag: nat, enabled: bool, other: nat)
    requires Describes(mem, base, m, t) && BanksApart(mem, base, m, t)
    requires Locate(mem, base, flag).Ok? && Locate(mem, base, flag).value.address in mem
    ensures var p := Locate(mem, base, flag).value;
            var mem' := mem[p.address := Stored(mem[p.address], p.mask, enabled)];
            && Describes(mem', base, m, t) && BanksApart(mem', base, m, t)
            && ReadFlag(mem', base, other) == if other == flag then Ok(enabled) else ReadFlag(mem, base, other)
  {
    var p := Locate(mem, base, flag).value;
    LocateIsBankOf(mem, base, m, t, flag);
    LocateIsBankOf(mem, base, m, t, other);
    var g, i := Quotient(flag, m.divisor), Remainder(flag, m.divisor);
    var h, j := Quotient(other, m.divisor), Remainder(other, m.divisor);
    Split(flag, m.divisor);
    Split(other, m.divisor);
    SameSplit(flag, other, m.divisor);
    HomeIsInBank(m, t, g, i);
    StoredKeepsLookups(mem, base, m, t, p, Stored(mem[p.address], p.mask, enabled), other);
    StoredFlag(mem, m, t, g, i, enabled, h, j);
  }

  /** Flag memory is a map from flag to bool: a write succeeds exactly when the flag
      can be read, changes that flag alone and keeps the structure. */
  lemma WriteUpdatesOneFlag(mem: Memory, base: int, m: Manager, t: Tree, flag: nat, enabled: bool, other: nat)
    requires Describes(mem, base, m, t) && BanksApart(mem, base, m, t)
    ensures var (mem', outcome) := WriteFlag(mem, base, flag, enabled);
            && Describes(mem', base, m, t) && BanksApart(mem', base, m, t)
            && (outcome.Ok? <==> ReadFlag(mem, base, flag).Ok?)
            && (outcome.Err? ==> mem' == mem && outcome.error == ReadFlag(mem, base, flag).error)
            && ReadFlag(mem', base, other)
               == if other == flag && outcome.Ok? then Ok(enabled) else ReadFlag(mem, base, other)
  {
    var located := Locate(mem, base, flag);
    if located.Ok? && located.value.address in mem {
      StoredPresentFlag(mem, base, m, t, flag, enabled, flag);
      StoredPresentFlag(mem, base, m, t, flag, enabled, other);
    }
  }
}

/** The attached process (crates/bb-archipelago/src/event_flags.rs:308-397). */
module EventFlagProcess {
  import opened Wrappers
  import opened Arithmetic
  import opened EventFlags

  class Process {
    const base: int
    var mem: Memory

    constructor (base: int, mem: Memory)
      ensures this.base == base && this.mem == mem
    {
      this.base := base;
      this.mem := mem;
    }

    method AddressAndMask(flag: nat) returns (place: Result<Place, Error>)
      ensures place == Locate(mem, base, flag)
    {
      var fields := ReadManager(mem, base);
      if fields.Err? {
        return Err(fields.error);
      }
      var m := fields.value;
      var found := Descend(m, Quotient(flag, m.divisor));
      if found.Err? {
        return Err(found.error);
      }
      var candidate := found.value;
      if candidate == m.sentinel {
        return Err(Absent);
      }
      var key := ReadWord(mem, candidate + NODE_KEY, 4);
      if key == None {
        return Err(Unreadable);
      }
      if key != Some(Quotient(flag, m.divisor)) {
        return Err(Absent);
      }
      place := PlaceOf(Storage(mem, m.packedBase, m.stride, candidate), Remainder(flag, m.divisor));
    }

    /** The walk down the tree, at most 512 links. */
    method Descend(m: Manager, group: nat) returns (found: Result<int, Error>)
      ensures found == Walk(mem, group, m.sentinel, m.sentinel + 8, MAX_STEPS)
    {
      var candidate, link := m.sentinel, m.sentinel + 8;
      for i := 0 to MAX_STEPS
        invariant Walk(mem, group, m.sentinel, m.sentinel + 8, MAX_STEPS) == Walk(mem, group, candidate, link, MAX_STEPS - i)
      {
        var node := ReadWord(mem, link, 8);
        if node == None {
          return Err(Unreadable);
        }
        if node.value == 0 {
          return Err(NullNode);
        }
        var nil := ReadWord(mem, node.value + NODE_NIL, 1);
        if nil == None {
          return Err(Unreadable);
        }
        if nil.value != 0 {
          break;
        }
        var key := ReadWord(mem, node.value + NODE_KEY, 4);
        if key == None {
          return Err(Unreadable);
        }
        if key.value < group {
          link := node.value + NODE_RIGHT;
        } else {
          candidate := node.value;
          link := node.value;
        }
      }
      found := Ok(candidate);
    }

    method Read(flag: nat) returns (value: Result<bool, Error>)
      ensures value == ReadFlag(mem, base, flag)
    {
      var place := AddressAndMask(flag);
      match place
      case Err(e) => value := Err(e);
      case Ok(p) => value := if p.address in mem then Ok(IsSet(mem[p.address], p.mask)) else Err(Unreadable);
    }

    /** Sets one flag and reads it back. */
    method Write(flag: nat, enabled: bool) returns (outcome: Result<(), Error>)
      modifies this
      ensures (mem, outcome) == WriteFlag(old(mem), base, flag, enabled)
      ensures outcome.Ok? ==> ReadFlag(mem, base, flag) == Ok(enabled)
      ensures forall m, t, other: nat ::
                Describes(old(mem), base, m, t) && BanksApart(old(mem), base, m, t) && other != flag ==>
                  ReadFlag(mem, base, other) == ReadFlag(old(mem), base, other)
    {
      ghost var before := mem;
      var place := AddressAndMask(flag);
      if place.Err? {
        return Err(place.error);
      }
      var p := place.value;
      if p.address !in mem {
        return Err(Unreadable);
      }
      var after := Stored(mem[p.address], p.mask, enabled);
      if after != mem[p.address] {
        mem := mem[p.address := after];
      } else {
        assert mem[p.address := after] == mem;
      }
      var value := Read(flag);
      outcome := match value
        case Err(e) => Err(e)
        case Ok(v) => if v == enabled then Ok(()) else Err(DidNotStick);
      forall m, t, other: nat | Describes(before, base, m, t) && BanksApart(before, base, m, t) && other != flag
        ensures ReadFlag(mem, base, other) == ReadFlag(before, base, other)
      {
        WriteUpdatesOneFlag(before, base, m, t, flag, enabled, other);
      }
    }
  }
}
