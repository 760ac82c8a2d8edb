/** The kind-agnostic table row model (internal/engine/columns/columns.go). */
module Rows {
  datatype Cell = Cell(text: string, status: int, role: int)

  /** A floating-point number, apart from rounding. */
  datatype Float = NaN | NegInf | Finite(value: real) | PosInf

  datatype SortKey = SortKey(isNum: bool, num: Float, str: string)

  datatype Row = Row(uid: string, namespace: string, name: string, version: string, health: int,
                     cells: seq<Cell>, sortKeys: seq<SortKey>)

  datatype Column = Column(title: string, minWidth: int, grow: int)

  /** Go's string comparison. */
  predicate StrLess(a: string, b: string) {
    b != "" && (a == "" || a[0] < b[0] || (a[0] == b[0] && StrLess(a[1..], b[1..])))
  }

  /** The comparison of floats: NaN is neither below nor above anything. */
  predicate FloatLess(a: Float, b: Float) {
    match (a, b)
    case (NaN, _) => false
    case (_, NaN) => false
    case (Finite(x), Finite(y)) => x < y
    case (NegInf, _) => b != NegInf
    case (_, PosInf) => a != PosInf
    case (_, _) => false
  }

  /** Numbers sort by value and before strings; strings sort as text. */
  predicate KeyLess(a: SortKey, b: SortKey) {
    if a.isNum && b.isNum then FloatLess(a.num, b.num)
    else if a.isNum != b.isNum then a.isNum
    else StrLess(a.str, b.str)
  }

  lemma {:induction false} StrLessOrder(a: string, b: string, c: string)
    ensures !(StrLess(a, b) && StrLess(b, a))
    ensures StrLess(a, c) ==> StrLess(a, b) || StrLess(b, c)
    ensures StrLess(a, b) || StrLess(b, a) || a == b
    decreases |a|
  {
    if a != "" && b != "" {
      if c != "" {
        StrLessOrder(a[1..], b[1..], c[1..]);
      } else {
        StrLessOrder(a[1..], b[1..], "");
      }
      assert a == [a[0]] + a[1..] && b == [b[0]] + b[1..];
    }
  }

  /** a is below b when it is a proper beginning of b, or smaller where they first differ. */
  lemma {:induction false} StrLessIff(a: string, b: string)
    ensures StrLess(a, b) <==>
            exists k :: 0 <= k <= |a| && k < |b| && a[..k] == b[..k] && (k == |a| || a[k] < b[k])
  {
    if a == "" || b == "" {
      assert StrLess(a, b) ==> a[..0] == b[..0];
    } else {
      StrLessIff(a[1..], b[1..]);
      if StrLess(a, b) {
        if a[0] < b[0] {
          assert a[..0] == b[..0];
        } else {
          var k :| 0 <= k <= |a[1..]| && k < |b[1..]| && a[1..][..k] == b[1..][..k] && (k == |a[1..]| || a[1..][k] < b[1..][k]);
          assert a[..k + 1] == [a[0]] + a[1..][..k] && b[..k + 1] == [b[0]] + b[1..][..k];
        }
      }
      if k :| 0 <= k <= |a| && k < |b| && a[..k] == b[..k] && (k == |a| || a[k] < b[k]) {
        if k > 0 {
          assert a[0] == a[..k][0] == b[..k][0] == b[0];
          assert a[1..][..k - 1] == a[..k][1..] && b[1..][..k - 1] == b[..k][1..];
        }
      }
    }
  }

  predicate IsNaN(k: SortKey) { k.isNum && k.num == NaN }

  /** The key order is asymmetric, and a key b lies between an ordered pair as a strict weak
      order demands if and only if it is not NaN between two numbers. */
  lemma KeyLessOrder(a: SortKey, b: SortKey, c: SortKey)
    ensures !(KeyLess(a, b) && KeyLess(b, a))
    ensures KeyLess(a, c) ==> ((KeyLess(a, b) || KeyLess(b, c)) <==> !(IsNaN(b) && a.isNum && c.isNum))
  {
    StrLessOrder(a.str, b.str, c.str);
  }
}
