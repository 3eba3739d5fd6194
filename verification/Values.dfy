/** SQL values with their nulls, three-valued comparison, and the total order used for sorting. */
module Values {

  datatype Option<+T> = None | Some(value: T)

  /** The outcome of an operation that may throw; `Throw` stands for any C++ exception or failed check. */
  datatype Result<+T> = Ok(value: T) | Throw
  {
    predicate IsFailure() { Throw? }

    function PropagateFailure<U>(): Result<U>
      requires Throw?
    {
      Throw
    }

    function Extract(): T
      requires Ok?
    {
      value
    }
  }

  datatype TypeId = Boolean | TinyInt | SmallInt | Integer | BigInt | Varchar

  /** `IntV` carries the column type it was read with; values of different widths compare by number. */
  datatype Value = Null(ty: TypeId) | BoolV(b: bool) | IntV(width: TypeId, n: int) | StrV(s: string)

  datatype CmpBool = CmpFalse | CmpTrue | CmpNull

  type Row = seq<Value>

  const INT32_NULL: int := -0x8000_0000

  function FromBool(b: bool): CmpBool {
    if b then CmpTrue else CmpFalse
  }

  function BoolValue(c: CmpBool): Value {
    match c
    case CmpNull => Null(Boolean)
    case CmpTrue => BoolV(true)
    case CmpFalse => BoolV(false)
  }

  /** Two's complement truncation to 32 bits. */
  function Wrap32(n: int): int {
    (n + 0x8000_0000) % 0x1_0000_0000 - 0x8000_0000
  }

  /** An INTEGER value; the smallest 32-bit number is the null marker. */
  function IntegerValue(n: int): Value {
    var w := Wrap32(n);
    if w == INT32_NULL then Null(Integer) else IntV(Integer, w)
  }

  function TypeOf(v: Value): TypeId {
    match v
    case Null(ty) => ty
    case BoolV(_) => Boolean
    case IntV(w, _) => w
    case StrV(_) => Varchar
  }

  /** What reading a value's storage as a bool gives, after a null test: a row passes when this holds. */
  predicate Passes(v: Value) {
    match v
    case Null(_) => false
    case BoolV(b) => b
    case IntV(_, n) => n % 256 != 0
    case StrV(_) => false
  }

  // ---- total order ----

  function Sign(n: int): int {
    if n < 0 then -1 else if n > 0 then 1 else 0
  }

  function CompareStrings(a: string, b: string): int {
    if a == [] then (if b == [] then 0 else -1)
    else if b == [] then 1
    else if a[0] != b[0] then Sign(a[0] as int - b[0] as int)
    else CompareStrings(a[1..], b[1..])
  }

  function Rank(v: Value): int {
    match v
    case Null(_) => 0
    case BoolV(_) => 1
    case IntV(_, _) => 2
    case StrV(_) => 3
  }

  /** Nulls first, then booleans, numbers and strings; within a kind, the SQL order. */
  function Compare(l: Value, r: Value): int {
    if Rank(l) != Rank(r) then Sign(Rank(l) - Rank(r))
    else match l
      case Null(_) => 0
      case BoolV(b) => Sign((if b then 1 else 0) - (if r.b then 1 else 0))
      case IntV(_, n) => Sign(n - r.n)
      case StrV(s) => CompareStrings(s, r.s)
  }

  lemma {:induction false} CompareStringsFlip(a: string, b: string)
    ensures CompareStrings(a, b) == -CompareStrings(b, a)
  {
    if a != [] && b != [] { CompareStringsFlip(a[1..], b[1..]); }
  }

  lemma {:induction false} CompareStringsTrans(a: string, b: string, c: string)
    requires CompareStrings(a, b) <= 0 && CompareStrings(b, c) <= 0
    ensures CompareStrings(a, c) <= 0
    ensures CompareStrings(a, c) == 0 ==> CompareStrings(a, b) == 0 && CompareStrings(b, c) == 0
  {
    if a != [] && b != [] && c != [] && a[0] == b[0] == c[0] {
      CompareStringsTrans(a[1..], b[1..], c[1..]);
    }
  }

  lemma CompareFlip(l: Value, r: Value)
    ensures Compare(l, r) == -Compare(r, l)
  {
    if l.StrV? && r.StrV? { CompareStringsFlip(l.s, r.s); }
  }

  /** `Compare` is transitive, and strictly so when either step is strict. */
  lemma CompareTrans(a: Value, b: Value, c: Value)
    requires Compare(a, b) <= 0 && Compare(b, c) <= 0
    ensures Compare(a, c) <= 0
    ensures Compare(a, c) == 0 ==> Compare(a, b) == 0 && Compare(b, c) == 0
  {
    if a.StrV? && b.StrV? && c.StrV? { CompareStringsTrans(a.s, b.s, c.s); }
  }

  // ---- three-valued comparison ----

  /** Both present and of one family; other pairs never satisfy a comparison. */
  predicate Comparable(l: Value, r: Value) {
    Rank(l) == Rank(r) && !l.Null?
  }

  function CompareEquals(l: Value, r: Value): CmpBool {
    if Comparable(l, r) then FromBool(Compare(l, r) == 0) else CmpNull
  }

  /** Values that compare equal to a common value occupy one place in the order. */
  lemma EqualsSamePlace(v: Value, a: Value, b: Value)
    requires CompareEquals(v, a) == CmpTrue && CompareEquals(v, b) == CmpTrue
    ensures Compare(a, b) == 0
  {
    CompareFlip(v, a);
    CompareTrans(a, v, b);
    CompareFlip(v, b);
    CompareTrans(b, v, a);
    CompareFlip(a, b);
  }

  lemma EqualsSymmetric(l: Value, r: Value)
    ensures CompareEquals(l, r) == CompareEquals(r, l)
  {
    CompareFlip(l, r);
  }
}
