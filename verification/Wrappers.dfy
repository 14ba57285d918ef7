/** Option and Result, as used by every component of the model. */
module Wrappers {
  datatype Option<+T> = None | Some(value: T)

  datatype Result<+T, +E> = Ok(value: T) | Err(error: E)

  /** What is in a sequence is in its front or is its last element. */
  lemma LastIn<T>(s: seq<T>)
    requires s != []
    ensures forall x :: x in s <==> x in s[..|s| - 1] || x == s[|s| - 1]
  {
    assert s == s[..|s| - 1] + [s[|s| - 1]];
  }

  /** A sequence with one element cut out, place by place. */
  lemma CutOut<T>(s: seq<T>, i: nat)
    requires i < |s|
    ensures var cut := s[..i] + s[i + 1..];
      |cut| == |s| - 1 && forall k :: 0 <= k < |cut| ==> cut[k] == s[if k < i then k else k + 1]
  {
  }

  lemma PutBack<T>(s: seq<T>, i: nat)
    requires i < |s|
    ensures s[..i] + [s[i]] + s[i + 1..] == s
  {
  }

  /** `sub` stands at `places` of `whole`, in its order. */
  ghost predicate StandsAt<T>(sub: seq<T>, places: seq<nat>, whole: seq<T>) {
    && |places| == |sub|
    && (forall k :: 0 <= k < |sub| ==> places[k] < |whole| && whole[places[k]] == sub[k])
    && (forall j, k :: 0 <= j < k < |places| ==> places[j] < places[k])
  }

  lemma StandsInMore<T>(sub: seq<T>, places: seq<nat>, front: seq<T>, x: T)
    requires StandsAt(sub, places, front)
    ensures StandsAt(sub, places, front + [x])
    ensures StandsAt(sub + [x], places + [|front|], front + [x])
    ensures forall k :: k in places ==> k < |front|
  {
  }
}
