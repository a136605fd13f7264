/** Shared vocabulary: optional values, results of fallible steps, and the ASCII
    lower-casing that both sides of every hexadecimal comparison go through. */
module Basics {

  datatype Option<+T> = None | Some(value: T)

  datatype Result<+T, +E> = Ok(value: T) | Err(error: E) {
    predicate IsFailure() {
      Err?
    }

    function PropagateFailure<U>(): Result<U, E>
      requires Err?
    {
      Err(error)
    }

    function Extract(): T
      requires Ok?
    {
      value
    }
  }

  function Min(a: int, b: int): int {
    if a <= b then a else b
  }

  function Max(a: int, b: int): int {
    if a <= b then b else a
  }

  function LowerChar(c: char): char {
    if 'A' <= c <= 'Z' then (c as int + 32) as char else c
  }

  function Lower(s: string): string {
    if s == "" then "" else [LowerChar(s[0])] + Lower(s[1..])
  }

  lemma {:induction false} LowerIdempotent(s: string)
    ensures |Lower(s)| == |s|
    ensures Lower(Lower(s)) == Lower(s)
  {
    if s != "" {
      LowerIdempotent(s[1..]);
      assert Lower(s)[1..] == Lower(s[1..]);
    }
  }

  /** Lower-casing moves each of the letters A to Z by 32 and keeps every other
      character where it is. */
  lemma {:induction false} LowerAt(s: string, k: nat)
    requires k < |s|
    ensures |Lower(s)| == |s|
    ensures Lower(s)[k] == if 65 <= s[k] as int <= 90 then (s[k] as int + 32) as char else s[k]
  {
    LowerIdempotent(s);
    if k != 0 {
      LowerAt(s[1..], k - 1);
    }
  }

  lemma {:induction false} LowerDrop(s: string, k: nat)
    requires k <= |s|
    ensures |Lower(s)| == |s| && Lower(s)[k..] == Lower(s[k..])
  {
    LowerIdempotent(s);
    if k != 0 {
      LowerDrop(s[1..], k - 1);
      assert Lower(s)[k..] == Lower(s[1..])[k - 1..];
      assert s[1..][k - 1..] == s[k..];
    }
  }

  ghost predicate Distinct(s: seq<nat>) {
    forall i, j :: 0 <= i < j < |s| ==> s[i] != s[j]
  }

  ghost predicate Below(s: seq<nat>, n: nat) {
    forall k :: 0 <= k < |s| ==> s[k] < n
  }

  ghost function Rows(order: seq<nat>): set<nat> {
    set k | 0 <= k < |order| :: order[k]
  }

  lemma {:induction false} DistinctRows(order: seq<nat>)
    requires Distinct(order)
    ensures |Rows(order)| == |order|
  {
    if order != [] {
      var before, last := order[..|order| - 1], order[|order| - 1];
      DistinctRows(before);
      assert Rows(order) == Rows(before) + {last} by {
        assert order == before + [last];
        forall x | x in Rows(order)
          ensures x in Rows(before) + {last}
        {
          var k :| 0 <= k < |order| && order[k] == x;
          assert k < |before| ==> before[k] == x;
        }
        assert forall k :: 0 <= k < |before| ==> before[k] == order[k];
      }
      assert last !in Rows(before);
    }
  }

  lemma {:induction false} SubsetSize(a: set<nat>, b: set<nat>)
    requires a <= b
    ensures |a| <= |b|
  {
    if a != {} {
      var x :| x in a;
      SubsetSize(a - {x}, b - {x});
    }
  }

  lemma Distribute(u: int, x: int, y: int)
    ensures u * (x + y) == u * x + u * y
  {
  }
}
