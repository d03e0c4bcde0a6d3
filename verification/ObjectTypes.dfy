/**
 The records and keys of the Wurst Object Store.
 */
module ObjectTypes {
  import opened Bytes
  import opened Keys
  import opened CowIndex

  type Id = Key

  /** Who may perform an operation. */
  datatype Rule = Open | Actors(ids: seq<Id>)

  datatype Governance = Governance(state: Rule, relationship: Rule, delete: Rule, upgrade: Rule)

  function Allowed(rule: Rule, actor: Option<Id>): bool {
    rule.Open? || (actor.Some? && actor.value != [] && actor.value in rule.ids)
  }

  /** One slice of an object's own bytes: where it starts virtually, and the DATA record that holds it. */
  datatype Extent = Extent(virtualOffset: nat, length: nat, recordOffset: nat)

  datatype Meta = Meta(applicationId: Option<Key>, packageDigest: Option<Key>, publisher: Option<Key>, governance: Governance)

  datatype Object = Object(id: Id, hostRoot: bool, meta: Meta, baseHash: Option<Key>, baseSize: nat, virtualSize: nat,
    stateRevision: nat, relationshipRevision: nat, stateHash: Option<Key>, stateHead: Option<nat>, extentRoot: Option<Pointer>)

  datatype Relation = Relation(parent: Id, child: Id, locator: Option<Key>)

  datatype Base = Base(hash: Key, size: nat, extentRoot: Option<Pointer>)

  /** The published root: four index roots, the identity of the root object and the commit chain. */
  datatype Root = Root(rootId: Id, objects: Option<Pointer>, byParent: Option<Pointer>, byChild: Option<Pointer>,
    bases: Option<Pointer>, generation: nat, previous: Option<nat>)

  datatype Value =
    | ObjectValue(obj: Object)
    | RelationValue(relation: Relation)
    | BaseValue(base: Base)
    | ExtentValue(extent: Extent)
    | DataValue(data: bytes)
    | CommitValue(root: Root)

  type Pages = seq<Page<Value>>

  // ----- index names: "objects", "bases", "relationship:parent", "relationship:child", "extent:object:" and "extent:base:"

  const OBJECTS: Key := [111, 98, 106, 101, 99, 116, 115]
  const BASES: Key := [98, 97, 115, 101, 115]
  const BY_PARENT: Key := [114, 101, 108, 97, 116, 105, 111, 110, 115, 104, 105, 112, 58, 112, 97, 114, 101, 110, 116]
  const BY_CHILD: Key := [114, 101, 108, 97, 116, 105, 111, 110, 115, 104, 105, 112, 58, 99, 104, 105, 108, 100]

  function ExtentsOfObject(id: Id): Key { [101, 120, 116, 101, 110, 116, 58, 111, 98, 106, 101, 99, 116, 58] + id }

  function ExtentsOfBase(hash: Key): Key { [101, 120, 116, 101, 110, 116, 58, 98, 97, 115, 101, 58] + hash }

  /** `objectKey`: what an object id may be: one to 160 code units, none of them NUL. */
  predicate ValidId(id: Id) { id != [] && |id| <= 160 && forall i | 0 <= i < |id| :: 0 < id[i] < 65536 }

  /** `relationshipKey`: the parent, a NUL, the child. */
  function RelationKey(parent: Id, child: Id): Key { parent + [0] + child }

  // ----- extent keys

  function Decimal(n: nat): (s: Key)
    ensures s != []
  {
    if n < 10 then [48 + n] else Decimal(n / 10) + [48 + n % 10]
  }

  function PadStart(s: Key, width: nat): Key {
    if |s| >= width then s else seq(width - |s|, _ => 48) + s
  }

  /** `extentKey`: twenty decimal digits. */
  function ExtentKey(offset: nat): Key { PadStart(Decimal(offset), 20) }

  function Pow10(n: nat): (p: nat)
    ensures p >= 1
  {
    if n == 0 then 1 else 10 * Pow10(n - 1)
  }

  function Digits(n: nat, width: nat): (s: Key)
    ensures |s| == width
  {
    if width == 0 then [] else Digits(n / 10, width - 1) + [48 + n % 10]
  }

  lemma {:induction false} LtSnoc(a: Key, b: Key, x: int, y: int)
    requires |a| == |b|
    ensures Lt(a + [x], b + [y]) <==> Lt(a, b) || (a == b && x < y)
  {
    if a != [] {
      assert (a + [x])[1..] == a[1..] + [x] && (b + [y])[1..] == b[1..] + [y];
      assert a == [a[0]] + a[1..] && b == [b[0]] + b[1..];
      LtSnoc(a[1..], b[1..], x, y);
    }
  }

  lemma {:induction false} DigitsOrder(a: nat, b: nat, width: nat)
    requires a < Pow10(width) && b < Pow10(width)
    ensures Lt(Digits(a, width), Digits(b, width)) <==> a < b
    ensures Digits(a, width) == Digits(b, width) <==> a == b
  {
    if width > 0 {
      DigitsOrder(a / 10, b / 10, width - 1);
      LtSnoc(Digits(a / 10, width - 1), Digits(b / 10, width - 1), 48 + a % 10, 48 + b % 10);
      var s, t := Digits(a, width), Digits(b, width);
      assert s[..width - 1] == Digits(a / 10, width - 1) && t[..width - 1] == Digits(b / 10, width - 1);
      assert s[width - 1] == 48 + a % 10 && t[width - 1] == 48 + b % 10;
    }
  }

  lemma {:induction false} ZeroDigits(width: nat)
    ensures Digits(0, width) == seq(width, _ => 48)
  {
    if width > 0 {
      ZeroDigits(width - 1);
    }
  }

  /** Padding the decimal notation gives the fixed-width one. */
  lemma {:induction false} PadIsDigits(n: nat, width: nat)
    requires 0 < width && n < Pow10(width)
    ensures |Decimal(n)| <= width && PadStart(Decimal(n), width) == Digits(n, width)
  {
    if n < 10 {
      ZeroDigits(width - 1);
    } else {
      PadIsDigits(n / 10, width - 1);
      assert |Decimal(n)| == |Decimal(n / 10)| + 1;
    }
  }

  lemma SafeOffsets()
    ensures MAX_SAFE_INTEGER < Pow10(20)
  {
    assert Pow10(4) == 10000;
    assert Pow10(8) == 10 * (10 * (10 * (10 * Pow10(4))));
    assert Pow10(12) == 10 * (10 * (10 * (10 * Pow10(8))));
    assert Pow10(16) == 10 * (10 * (10 * (10 * Pow10(12))));
    assert Pow10(20) == 10 * (10 * (10 * (10 * Pow10(16))));
  }

  /** The string order of extent keys is the numeric order of offsets, for every safe offset. */
  lemma ExtentKeyOrder(a: nat, b: nat)
    requires a <= MAX_SAFE_INTEGER && b <= MAX_SAFE_INTEGER
    ensures Lt(ExtentKey(a), ExtentKey(b)) <==> a < b
    ensures ExtentKey(a) == ExtentKey(b) <==> a == b
  {
    hide Lt, Pow10, Digits, Decimal, PadStart;
    SafeOffsets();
    PadIsDigits(a, 20);
    PadIsDigits(b, 20);
    DigitsOrder(a, b, 20);
  }
}
