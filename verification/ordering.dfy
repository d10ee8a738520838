/**
 * The order in which an indexed table is sorted: text compares
 * lexicographically by character code (a proper prefix comes first), numbers
 * by value, and an index key made of several columns compares column by
 * column, the first difference deciding.
 */
module Ordering {
  import opened Rows

  /** Lexicographic order on strings, by character code. */
  predicate TextLe(a: string, b: string)
  {
    a == [] || (b != [] && (a[0] < b[0] || (a[0] == b[0] && TextLe(a[1..], b[1..]))))
  }

  lemma {:induction false} TextLeTotal(a: string, b: string)
    ensures TextLe(a, b) || TextLe(b, a)
  {
    if a != [] && b != [] && a[0] == b[0] {
      TextLeTotal(a[1..], b[1..]);
    }
  }

  lemma {:induction false} TextLeAntisymmetric(a: string, b: string)
    requires TextLe(a, b) && TextLe(b, a)
    ensures a == b
  {
    if a != [] && b != [] {
      TextLeAntisymmetric(a[1..], b[1..]);
      assert a == [a[0]] + a[1..] && b == [b[0]] + b[1..];
    }
  }

  lemma {:induction false} TextLeTransitive(a: string, b: string, c: string)
    requires TextLe(a, b) && TextLe(b, c)
    ensures TextLe(a, c)
  {
    if a != [] && b != [] && c != [] && a[0] == b[0] && b[0] == c[0] {
      TextLeTransitive(a[1..], b[1..], c[1..]);
    }
  }

  /**
   * Order on cell values. A column holds values of one kind only, so the
   * order between a number and a text is never consulted by the table; it
   * puts numbers first so that the order is total.
   */
  predicate ValueLe(a: Value, b: Value)
  {
    match (a, b)
    case (Number(x), Number(y)) => x <= y
    case (Text(s), Text(t)) => TextLe(s, t)
    case (Number(_), Text(_)) => true
    case (Text(_), Number(_)) => false
  }

  lemma ValueLeTotal(a: Value, b: Value)
    ensures ValueLe(a, b) || ValueLe(b, a)
  {
    if a.Text? && b.Text? {
      TextLeTotal(a.text, b.text);
    }
  }

  lemma ValueLeAntisymmetric(a: Value, b: Value)
    requires ValueLe(a, b) && ValueLe(b, a)
    ensures a == b
  {
    if a.Text? && b.Text? {
      TextLeAntisymmetric(a.text, b.text);
    }
  }

  lemma ValueLeTransitive(a: Value, b: Value, c: Value)
    requires ValueLe(a, b) && ValueLe(b, c)
    ensures ValueLe(a, c)
  {
    if a.Text? && b.Text? && c.Text? {
      TextLeTransitive(a.text, b.text, c.text);
    }
  }

  /** Lexicographic order on index keys (tuples of values of equal length). */
  predicate KeyLe(a: seq<Value>, b: seq<Value>)
  {
    a == [] || (b != [] && ((a[0] != b[0] && ValueLe(a[0], b[0])) || (a[0] == b[0] && KeyLe(a[1..], b[1..]))))
  }

  lemma {:induction false} KeyLeTotal(a: seq<Value>, b: seq<Value>)
    requires |a| == |b|
    ensures KeyLe(a, b) || KeyLe(b, a)
  {
    if a != [] {
      if a[0] == b[0] {
        KeyLeTotal(a[1..], b[1..]);
      } else {
        ValueLeTotal(a[0], b[0]);
      }
    }
  }

  lemma {:induction false} KeyLeTransitive(a: seq<Value>, b: seq<Value>, c: seq<Value>)
    requires KeyLe(a, b) && KeyLe(b, c)
    ensures KeyLe(a, c)
  {
    if a != [] {
      assert b != [] && c != [];
      if a[0] == b[0] && b[0] == c[0] {
        KeyLeTransitive(a[1..], b[1..], c[1..]);
      } else if a[0] == b[0] {
        assert ValueLe(a[0], c[0]) && a[0] != c[0];
      } else if b[0] == c[0] {
        assert ValueLe(a[0], c[0]) && a[0] != c[0];
      } else {
        ValueLeTransitive(a[0], b[0], c[0]);
        if a[0] == c[0] {
          ValueLeAntisymmetric(a[0], b[0]);
        }
      }
    }
  }
}
