/** Types and small orderings shared by every part of the model. */
module Basics {
  datatype Option<+T> = None | Some(value: T)

  type Id = string
  type Project = string
  type Provider = string

  predicate LowerOrDigit(c: char) {
    'a' <= c <= 'z' || '0' <= c <= '9'
  }

  /** What `bounded_id` lets through: 8 to 128 letters, digits, `_` or `-`. */
  predicate IsId(text: string) {
    8 <= |text| <= 128 && forall i | 0 <= i < |text| :: IdChar(text[i])
  }

  predicate IdChar(c: char) {
    LowerOrDigit(c) || 'A' <= c <= 'Z' || c == '_' || c == '-'
  }

  /** What `bounded_provider` lets through: up to 32 of `a-z0-9_-` from a letter on, and not the owner's name. */
  predicate IsProvider(text: string) {
    && 1 <= |text| <= 32 && 'a' <= text[0] <= 'z' && text != "user_control"
    && forall i | 0 <= i < |text| :: LowerOrDigit(text[i]) || text[i] == '_' || text[i] == '-'
  }

  /** An instant. The database compares canonical UTC strings; `Temporal` proves
      that this comparison is the comparison of the instants they denote. */
  type Time = int

  /** `coalesce(max(...),0)` over the numbers of a column. */
  function MaxOf(s: set<nat>): (m: nat)
    ensures s == {} ==> m == 0
    ensures s != {} ==> m in s
    ensures forall x | x in s :: x <= m
  {
    if s == {} then 0
    else
      HasMaximum(s);
      var m :| m in s && forall x | x in s :: x <= m;
      m
  }

  lemma {:induction false} HasMaximum(s: set<nat>)
    requires s != {}
    ensures exists m :: m in s && forall x | x in s :: x <= m
  {
    var a :| a in s;
    var rest := s - {a};
    assert s == rest + {a};
    if rest == {} {
      assert a in s && forall x | x in s :: x <= a;
    } else {
      HasMaximum(rest);
      var m :| m in rest && forall x | x in rest :: x <= m;
      var top := if a < m then m else a;
      assert top in s && forall x | x in s :: x <= top;
    }
  }

  /** SQLite's binary collation: compare code points from the left. */
  predicate LexLess(a: string, b: string) {
    b != "" && (a == "" || a[0] < b[0] || (a[0] == b[0] && LexLess(a[1..], b[1..])))
  }

  lemma {:induction false} LexTotal(a: string, b: string)
    ensures a == b || LexLess(a, b) || LexLess(b, a)
    ensures !(LexLess(a, b) && LexLess(b, a))
  {
    if a != "" && b != "" {
      LexTotal(a[1..], b[1..]);
      if a[0] == b[0] && a[1..] == b[1..] {
        assert a == [a[0]] + a[1..] && b == [b[0]] + b[1..];
      }
    }
  }

  lemma {:induction false} LexTransitive(a: string, b: string, c: string)
    requires LexLess(a, b) && LexLess(b, c)
    ensures LexLess(a, c)
  {
    if a != "" && a[0] == b[0] && b[0] == c[0] {
      LexTransitive(a[1..], b[1..], c[1..]);
    }
  }
}
