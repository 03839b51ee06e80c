/** Small shared vocabulary: optional values, outcomes and the SQL-style row filter. */
module Base {

  type Id = string

  datatype Option<+T> = None | Some(value: T)

  /** A handler either finishes or raises an error with a message. */
  datatype Outcome = Done | Failed(message: string)

  /** The rows of a query result that satisfy its WHERE clause, in table order. */
  function Select<T(!new)>(rows: seq<T>, keep: T -> bool): (r: seq<T>)
    ensures forall x :: x in r <==> x in rows && keep(x)
  {
    if rows == [] then []
    else
      var tail := Select(rows[1..], keep);
      if keep(rows[0]) then [rows[0]] + tail else tail
  }

  ghost predicate NoDuplicates<T(!new)>(s: seq<T>) {
    forall i, j | 0 <= i < j < |s| :: s[i] != s[j]
  }

  lemma {:induction false} SelectKeepsNoDuplicates<T(!new)>(rows: seq<T>, keep: T -> bool)
    requires NoDuplicates(rows)
    ensures NoDuplicates(Select(rows, keep))
  {
    if rows != [] {
      SelectKeepsNoDuplicates(rows[1..], keep);
      var tail := Select(rows[1..], keep);
      assert rows[0] !in tail by {
        assert rows[0] !in rows[1..];
      }
    }
  }

  /** Splits a list into consecutive batches of at most `size` elements. */
  function Chunk<T(!new)>(s: seq<T>, size: nat): (batches: seq<seq<T>>)
    requires size > 0
    ensures forall x :: x in s <==> exists b :: b in batches && x in b
    ensures forall b | b in batches :: 0 < |b| <= size
  {
    if |s| == 0 then []
    else if |s| <= size then [s]
    else
      var rest := Chunk(s[size..], size);
      assert s == s[..size] + s[size..];
      [s[..size]] + rest
  }
}
