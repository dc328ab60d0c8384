/** Option and Result, instants, and a few facts about collections that several modules share. */
module Basics {

  /** Instants. */
  type Time = int

  datatype Option<+T> = None | Some(value: T)

  datatype Result<+T> = Ok(value: T) | Err(error: string)

  ghost predicate NoDup<T>(s: seq<T>) {
    forall i, j :: 0 <= i < j < |s| ==> s[i] != s[j]
  }

  /** The singleton or empty sequence an optional value stands for. */
  function ToSeq<T>(o: Option<T>): seq<T> {
    match o
    case None => []
    case Some(v) => [v]
  }

  /** The sequence without its first occurrence of v. */
  function RemoveFirst<T(==)>(s: seq<T>, v: T): (r: seq<T>)
    ensures v !in s ==> r == s
    ensures v in s ==> |r| == |s| - 1
  {
    if s == [] then [] else if s[0] == v then s[1..] else [s[0]] + RemoveFirst(s[1..], v)
  }

  /** Removing the only occurrence of v leaves every other element and no v. */
  lemma {:induction false} RemoveFirstNoDup<T>(s: seq<T>, v: T)
    requires NoDup(s)
    ensures NoDup(RemoveFirst(s, v))
    ensures forall x :: x in RemoveFirst(s, v) <==> x in s && x != v
  {
    if s == [] {
    } else if s[0] == v {
      assert s == [v] + s[1..];
    } else {
      RemoveFirstNoDup(s[1..], v);
      assert s == [s[0]] + s[1..];
      assert s[0] !in s[1..];
    }
  }

  lemma {:induction false} RemoveFirstAt<T>(s: seq<T>, i: nat)
    requires i < |s| && s[i] !in s[..i]
    ensures RemoveFirst(s, s[i]) == s[..i] + s[i + 1..]
  {
    if i == 0 {
    } else {
      assert s[0] in s[..i];
      assert s[1..][..i - 1] == s[..i][1..];
      RemoveFirstAt(s[1..], i - 1);
    }
  }

  /** A new key adds its value to a map's values, and nothing else. */
  lemma ValuesOfUpdate<K, V>(m: map<K, V>, k: K, v: V)
    requires k !in m
    ensures m[k := v].Values == m.Values + {v}
  {
    var grown := m[k := v];
    forall x | x in m.Values
      ensures x in grown.Values
    {
      var j :| j in m && m[j] == x;
      assert grown[j] == x;
    }
    assert grown[k] == v;
  }
}
