/** Substring search, as memcmp loops and str::find do it, and texts measured in UTF-8 bytes. */
module Strings {
  import opened Options

  predicate OccursAt(s: string, needle: string, i: nat) {
    i + |needle| <= |s| && s[i..i + |needle|] == needle
  }

  predicate Contains(s: string, needle: string) {
    exists i: nat :: i <= |s| && OccursAt(s, needle, i)
  }

  /** The first place at or after `from` where the needle occurs. */
  function FindFrom(s: string, needle: string, from: nat): (r: Option<nat>)
    requires from <= |s|
    ensures r.Some? ==> from <= r.value && OccursAt(s, needle, r.value)
    ensures forall i :: from <= i < (if r.Some? then r.value else |s| + 1) ==> !OccursAt(s, needle, i)
    decreases |s| - from
  {
    if OccursAt(s, needle, from) then Some(from)
    else if from == |s| then None
    else FindFrom(s, needle, from + 1)
  }

  function Find(s: string, needle: string): (r: Option<nat>)
    ensures r.Some? ==> OccursAt(s, needle, r.value)
    ensures forall i: nat :: i < (if r.Some? then r.value else |s| + 1) ==> !OccursAt(s, needle, i)
  {
    FindFrom(s, needle, 0)
  }

  /** Text up to the first place of a character is determined by the whole. */
  lemma CutAt(c: char, a: string, b: string, restA: string, restB: string)
    requires c !in a && c !in b && a + [c] + restA == b + [c] + restB
    ensures a == b && restA == restB
  {
    var s, t := a + [c] + restA, b + [c] + restB;
    assert s[|a|] == c && t[|b|] == c;
    assert forall i :: 0 <= i < |a| ==> s[i] == a[i];
    assert forall i :: 0 <= i < |b| ==> t[i] == b[i];
    assert |a| == |b|;
    assert a == s[..|a|] && b == t[..|b|];
    assert restA == s[|a| + 1..] && restB == t[|b| + 1..];
  }

  function Utf8Width(c: char): nat {
    if c as int < 0x80 then 1 else if c as int < 0x800 then 2 else if c as int < 0x1_0000 then 3 else 4
  }

  function Utf8Length(s: string): nat {
    if s == [] then 0 else Utf8Width(s[0]) + Utf8Length(s[1..])
  }

  /** The longest head of at most `limit` bytes. */
  function Head(s: string, limit: nat): (head: string)
    ensures head <= s && Utf8Length(head) <= limit
  {
    if s == [] || Utf8Width(s[0]) > limit then []
    else
      var rest := Head(s[1..], limit - Utf8Width(s[0]));
      assert ([s[0]] + rest)[1..] == rest;
      [s[0]] + rest
  }

  /** Where byte `limit` is the end of a character, the head ends there. */
  lemma {:induction false} HeadIsCut(s: string, limit: nat, k: nat)
    requires k <= |s| && Utf8Length(s[..k]) == limit
    ensures Head(s, limit) == s[..k]
  {
    if k > 0 {
      assert s[..k][1..] == s[1..][..k - 1];
      HeadIsCut(s[1..], limit - Utf8Width(s[0]), k - 1);
      assert s[..k] == [s[0]] + s[1..][..k - 1];
    }
  }
}
