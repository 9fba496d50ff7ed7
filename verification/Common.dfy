/** Types and constants shared by every component. */
module Common {

  datatype Option<+T> = None | Some(value: T)

  /** Primary keys. The source draws random UUIDs; only their distinctness matters. */
  type Id = nat

  // Instants and durations are exact integers of microseconds, the resolution of a datetime.
  const SECOND := 1_000_000
  const MINUTE := 60 * SECOND
  const HOUR := 60 * MINUTE
  const DAY := 24 * HOUR

  predicate NoDuplicates<T(==)>(rows: seq<T>) {
    forall i, j :: 0 <= i < j < |rows| ==> rows[i] != rows[j]
  }

  /** `rows` lists the members of `selected` once each, in the order the database returned them. */
  predicate IsScan<T(==)>(rows: seq<T>, selected: set<T>) {
    NoDuplicates(rows) && (forall x | x in rows :: x in selected) && (forall x | x in selected :: x in rows)
  }

  /** The sequence of changes that `values` makes to a state that starts at `start`. */
  function Compress<S(==)>(start: S, values: seq<S>): (changes: seq<S>) {
    if values == [] then []
    else if values[0] == start then Compress(start, values[1..])
    else [values[0]] + Compress(values[0], values[1..])
  }

  function FinalOf<S>(start: S, values: seq<S>): S {
    if values == [] then start else values[|values| - 1]
  }

  /** Consecutive changes differ, and the first one differs from the start. */
  predicate Alternates<S(==)>(start: S, changes: seq<S>) {
    && (changes != [] ==> changes[0] != start)
    && forall i :: 0 < i < |changes| ==> changes[i] != changes[i - 1]
  }

  lemma {:induction false} CompressAlternates<S>(start: S, values: seq<S>)
    ensures Alternates(start, Compress(start, values))
    ensures FinalOf(start, Compress(start, values)) == FinalOf(start, values)
  {
    if values != [] {
      CompressAlternates(values[0], values[1..]);
      if values[0] != start {
        var rest := Compress(values[0], values[1..]);
        var changes := Compress(start, values);
        assert changes == [values[0]] + rest;
        forall i | 0 < i < |changes| ensures changes[i] != changes[i - 1] {
          assert changes[i] == rest[i - 1];
          assert i > 1 ==> changes[i - 1] == rest[i - 2];
        }
        assert FinalOf(start, [values[0]] + rest) == FinalOf(values[0], rest);
      }
    }
  }

  lemma {:induction false} CompressAppend<S>(start: S, a: seq<S>, b: seq<S>)
    ensures Compress(start, a + b) == Compress(start, a) + Compress(FinalOf(start, a), b)
  {
    if a == [] {
      assert a + b == b;
    } else {
      assert (a + b)[0] == a[0] && (a + b)[1..] == a[1..] + b;
      CompressAppend(a[0], a[1..], b);
      assert FinalOf(start, a) == FinalOf(a[0], a[1..]);
    }
  }
}
