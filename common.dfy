/** Small building blocks shared by the other modules: an optional value,
    a success-or-error value, and substring containment on strings. */
module Common {

  datatype Option<+T> = None | Some(value: T)

  datatype Result<+T, +E> = Ok(value: T) | Err(error: E)

  /** `part` occurs in `text` starting at index `i`. */
  predicate OccursAt(text: string, part: string, i: int)
  {
    0 <= i <= |text| - |part| && text[i..i + |part|] == part
  }

  /** `part` is a substring of `text` (Python's `part in text`). */
  ghost predicate Contains(text: string, part: string)
  {
    exists i :: OccursAt(text, part, i)
  }

  /** The middle piece of a three-part concatenation is a substring of it. */
  lemma ContainsMiddle(front: string, part: string, back: string)
    ensures Contains(front + part + back, part)
  {
    assert (front + part + back)[|front|..|front| + |part|] == part;
    assert OccursAt(front + part + back, part, |front|);
  }
}
