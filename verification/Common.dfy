/** Datatypes and sequence facts shared by the models. */
module Common {

  datatype Option<+T> = None | Some(value: T)

  /** No two positions of the sequence hold the same value. */
  predicate Distinct<T(==)>(s: seq<T>) {
    forall i, j :: 0 <= i < j < |s| ==> s[i] != s[j]
  }

  /** The first position of a character, or the length of a text without it. */
  function IndexOf(s: string, c: char): (k: nat)
    ensures k <= |s| && c !in s[..k] && (k < |s| ==> s[k] == c)
  {
    if s == "" || s[0] == c then 0
    else
      var k := IndexOf(s[1..], c);
      assert s[..1 + k] == [s[0]] + s[1..][..k];
      1 + k
  }

  lemma IndexOfFirst(front: string, c: char, rest: string)
    requires c !in front
    ensures IndexOf(front + [c] + rest, c) == |front|
  {
    var s, k := front + [c] + rest, IndexOf(front + [c] + rest, c);
    assert s[|front|] == c;
    assert forall i :: 0 <= i < |front| ==> s[i] == front[i];
    assert forall i :: 0 <= i < k ==> s[i] in s[..k];
  }

  /** `separator.join`. */
  function Join(parts: seq<string>, separator: string): string {
    if parts == [] then ""
    else if |parts| == 1 then parts[0]
    else parts[0] + separator + Join(parts[1..], separator)
  }

  lemma {:induction false} JoinGrows(parts: seq<string>, part: string, separator: string)
    ensures Join(parts + [part], separator) == if parts == [] then part else Join(parts, separator) + separator + part
  {
    if parts == [] {
      assert parts + [part] == [part];
    } else {
      assert (parts + [part])[1..] == parts[1..] + [part];
      JoinGrows(parts[1..], part, separator);
    }
  }

  /** A text occurs in another at a position. */
  predicate At(s: string, sub: string, k: nat) { k + |sub| <= |s| && s[k..k + |sub|] == sub }

  /** The first position at or behind k, as `find` finds it. */
  function FirstAt(s: string, sub: string, k: nat): (found: Option<nat>)
    requires k <= |s|
    ensures found.Some? ==>
      k <= found.value <= |s| && At(s, sub, found.value) && forall j :: k <= j < found.value ==> !At(s, sub, j)
    ensures found.None? ==> forall j :: k <= j <= |s| ==> !At(s, sub, j)
    decreases |s| - k
  {
    if At(s, sub, k) then Some(k) else if k == |s| then None else FirstAt(s, sub, k + 1)
  }

  /** `str.isspace` of an ASCII character. */
  predicate IsSpace(c: char) { c == ' ' || '\t' <= c <= '\r' || 28 as char <= c <= 31 as char }

  /** Tab to carriage return, the four separators of information, and the space. */
  lemma SpacesAre(c: char)
    ensures IsSpace(c) <==> c as int in {9, 10, 11, 12, 13, 28, 29, 30, 31, 32}
  {
  }

  /** `rstrip`: all but the white space at the end. */
  function TrimEnd(s: string): (r: string)
    ensures r <= s && (r != "" ==> !IsSpace(r[|r| - 1])) && forall k :: |r| <= k < |s| ==> IsSpace(s[k])
  {
    if s != "" && IsSpace(s[|s| - 1]) then TrimEnd(s[..|s| - 1]) else s
  }

  /** Nothing else is the rest of a text without the white space at its end. */
  lemma {:induction false} TrimEndOf(r: string, space: string)
    requires r == "" || !IsSpace(r[|r| - 1])
    requires forall k :: 0 <= k < |space| ==> IsSpace(space[k])
    ensures TrimEnd(r + space) == r
  {
    if space == "" {
      assert r + space == r;
    } else {
      assert (r + space)[..|r + space| - 1] == r + space[..|space| - 1];
      TrimEndOf(r, space[..|space| - 1]);
    }
  }
}
