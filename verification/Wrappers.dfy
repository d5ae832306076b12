/** Option and Result, shared by the modules that model raised errors, and the order of preference among
    texts. */
module Wrappers {
  datatype Option<+T> = None | Some(value: T)

  datatype Result<+T, +E> = Ok(value: T) | Err(error: E)

  /** The first of `xs` that is not blank, or blank. */
  ghost function FirstGiven(xs: seq<string>): string {
    if xs == [] then "" else if xs[0] != "" then xs[0] else FirstGiven(xs[1..])
  }

  lemma FirstOf(x: string, rest: seq<string>)
    ensures FirstGiven([x] + rest) == if x != "" then x else FirstGiven(rest)
  {
    assert ([x] + rest)[1..] == rest;
  }

  lemma FirstOfTwo(a: string, b: string)
    ensures FirstGiven([a, b]) == if a != "" then a else b
  {
    FirstOf(a, [b]);
    FirstOf(b, []);
    assert [a] + [b] == [a, b] && [b] + [] == [b];
  }

  lemma FirstOfThree(a: string, b: string, c: string)
    ensures FirstGiven([a, b, c]) == if a != "" then a else if b != "" then b else c
  {
    FirstOf(a, [b, c]);
    FirstOfTwo(b, c);
    assert [a] + [b, c] == [a, b, c];
  }
}
