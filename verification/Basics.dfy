/**
 What several of the models share: options, bounds, lists without repetition and the
 sizes of machine words.
 */
module Basics {

  const U16: nat := 0x1_0000
  const U32: nat := 0x1_0000_0000
  const U64: nat := 0x1_0000_0000_0000_0000

  datatype Option<T> = None | Some(value: T)

  function Min(a: nat, b: nat): nat {
    if a <= b then a else b
  }

  function Max(a: nat, b: nat): nat {
    if a >= b then a else b
  }

  predicate NoDup<T(==)>(xs: seq<T>) {
    forall i, j :: 0 <= i < j < |xs| ==> xs[i] != xs[j]
  }

  predicate Apart<T(==)>(xs: seq<T>, ys: seq<T>) {
    forall i, j :: 0 <= i < |xs| && 0 <= j < |ys| ==> xs[i] != ys[j]
  }

  predicate AllIn<T(==)>(xs: seq<T>, s: set<T>) {
    forall i :: 0 <= i < |xs| ==> xs[i] in s
  }
}
