/** Small shared vocabulary: optional values, results and facts about sequences. */
module Basics {

  datatype Option<+T> = None | Some(value: T)

  datatype Result<+T, +E> = Ok(value: T) | Err(error: E)

  /** Reading an optional map: a missing map has no keys. */
  function Lookup<V>(m: Option<map<string, V>>, k: string): Option<V> {
    if m.Some? && k in m.value then Some(m.value[k]) else None
  }

  ghost function Elements<T>(s: seq<T>): set<T> {
    set x | x in s
  }

  ghost predicate Distinct<T>(s: seq<T>) {
    forall i, j :: 0 <= i < j < |s| ==> s[i] != s[j]
  }

  function Last<T>(s: seq<T>): T
    requires |s| > 0
  {
    s[|s| - 1]
  }

  lemma AppendNothing<T>(s: seq<T>)
    ensures s + [] == s && [] + s == s
  {
  }

  lemma FrontLast<T>(s: seq<T>)
    requires s != []
    ensures s == s[..|s| - 1] + [Last(s)]
  {
  }

  lemma AppendFrontLast<T>(s: seq<T>, t: seq<T>)
    requires t != []
    ensures s + t == (s + t[..|t| - 1]) + [Last(t)]
  {
  }

  lemma AppendAssociative<T>(s: seq<T>, t: seq<T>, u: seq<T>)
    ensures (s + t) + u == s + (t + u)
  {
  }

  lemma AppendSplit<T>(s: seq<T>, t: seq<T>, i: nat)
    requires i <= |s|
    ensures (s + t)[..i] == s[..i] && (s + t)[i..] == s[i..] + t
  {
  }

  lemma AppendTail<T>(s: seq<T>, t: seq<T>)
    requires s != []
    ensures (s + t)[0] == s[0] && (s + t)[1..] == s[1..] + t
  {
  }
}
