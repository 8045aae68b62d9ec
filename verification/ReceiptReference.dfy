/** The reference parser of platform/guidance_evaluation.py; digits are ASCII. */
module ReceiptReference {
  import opened Common
  import Decimal

  datatype Error = NotExact | Invalid

  datatype Reference = Reference(bucket: string, objectName: string, generation: string)

  datatype Result = Ok(value: Reference) | Err(error: Error)

  const SCHEME := "gs://"
  const MARK := "#generation="

  /** The last position of the mark, as `rsplit` finds it. */
  function LastMark(s: string): (k: Option<nat>)
    ensures k.Some? ==> At(s, MARK, k.value) && forall j :: k.value < j <= |s| ==> !At(s, MARK, j)
    ensures k.None? ==> forall j :: 0 <= j <= |s| ==> !At(s, MARK, j)
  {
    SearchMark(s, |s|)
  }

  function SearchMark(s: string, k: nat): (found: Option<nat>)
    requires k <= |s| && forall j :: k < j <= |s| ==> !At(s, MARK, j)
    ensures found.Some? ==> At(s, MARK, found.value) && forall j :: found.value < j <= |s| ==> !At(s, MARK, j)
    ensures found.None? ==> forall j :: 0 <= j <= |s| ==> !At(s, MARK, j)
  {
    if At(s, MARK, k) then Some(k) else if k == 0 then None else SearchMark(s, k - 1)
  }

  /** `split("/")`. */
  function Segments(s: string): seq<string> {
    var k := IndexOf(s, '/');
    if k == |s| then [s] else [s[..k]] + Segments(s[k + 1..])
  }

  /** The segments are the pieces between the slashes, and nothing else. */
  lemma {:induction false} SegmentsAreExact(s: string)
    ensures Segments(s) != [] && Join(Segments(s), "/") == s
    ensures forall k :: 0 <= k < |Segments(s)| ==> '/' !in Segments(s)[k]
  {
    hide IndexOf;
    var k := IndexOf(s, '/');
    if k == |s| {
      assert s[..k] == s;
    } else {
      SegmentsAreExact(s[k + 1..]);
      assert Segments(s)[1..] == Segments(s[k + 1..]);
      assert s == s[..k] + "/" + s[k + 1..];
    }
  }

  predicate WellFormed(t: Reference) {
    && t.bucket != "" && '/' !in t.bucket && t.objectName != ""
    && Decimal.IsNumeral(t.generation) && ".." !in Segments(t.objectName)
  }

  function Printed(t: Reference): string {
    SCHEME + t.bucket + "/" + t.objectName + MARK + t.generation
  }

  /** `_binding`. */
  function Binding(ref: string): Result {
    if !(SCHEME <= ref) || LastMark(ref).None? then Err(NotExact)
    else
      var mark := LastMark(ref).value;
      var location, generation := ref[..mark], ref[mark + |MARK|..];
      var remainder := if SCHEME <= location then location[|SCHEME|..] else location;
      var slash := IndexOf(remainder, '/');
      if slash == |remainder| then Err(Invalid)
      else
        var t := Reference(remainder[..slash], remainder[slash + 1..], generation);
        if t.bucket == "" || t.objectName == "" || !Decimal.IsNumeral(generation) || ".." in Segments(t.objectName)
        then Err(Invalid) else Ok(t)
  }

  /** Behind the last mark there is no mark, so none begins behind it. */
  lemma LastMarkOf(front: string, digits: string)
    requires forall k :: 0 <= k < |digits| ==> digits[k] != '#'
    ensures LastMark(front + MARK + digits) == Some(|front|)
  {
    var s := front + MARK + digits;
    assert s[|front|..|front| + |MARK|] == MARK;
    assert At(s, MARK, |front|);
    forall j | |front| < j <= |s| ensures !At(s, MARK, j) {
      if j + |MARK| <= |s| {
        assert s[j] != '#' by {
          if j < |front| + |MARK| {
            assert s[j] == MARK[j - |front|];
          } else {
            assert s[j] == digits[j - |front| - |MARK|];
          }
        }
        assert s[j..j + |MARK|][0] == s[j];
      }
    }
  }

  /** Every well-formed reference, even one whose object name holds a mark, parses back. */
  lemma PrintedParses(t: Reference)
    requires WellFormed(t)
    ensures Binding(Printed(t)) == Ok(t)
  {
    hide LastMark, Segments, IndexOf;
    var location := SCHEME + t.bucket + "/" + t.objectName;
    var ref := Printed(t);
    assert ref == location + MARK + t.generation;
    LastMarkOf(location, t.generation);
    assert ref[..|location|] == location && ref[|location| + |MARK|..] == t.generation;
    assert SCHEME <= location && location[|SCHEME|..] == t.bucket + ['/'] + t.objectName;
    IndexOfFirst(t.bucket, '/', t.objectName);
  }

  /** Parser and printer are inverse to each other: a reference is accepted as a triple exactly
      when it is the print of the triple, the bucket holds no slash, no segment of the object's
      name is "..", the generation is digits, and none of the three is empty. */
  lemma ParsesExactly(ref: string, t: Reference)
    ensures Binding(ref) == Ok(t) <==>
      && ref == "gs://" + t.bucket + "/" + t.objectName + "#generation=" + t.generation
      && t.bucket != "" && '/' !in t.bucket
      && t.objectName != "" && ".." !in Segments(t.objectName)
      && t.generation != "" && forall k :: 0 <= k < |t.generation| ==> '0' <= t.generation[k] <= '9'
  {
    hide Segments;
    if WellFormed(t) && ref == Printed(t) {
      PrintedParses(t);
    }
    if Binding(ref) == Ok(t) {
      AcceptedIsPrinted(ref, t);
    }
  }

  lemma AcceptedIsPrinted(ref: string, t: Reference)
    requires Binding(ref) == Ok(t)
    ensures WellFormed(t) && ref == Printed(t)
  {
    hide LastMark, Segments, IndexOf;
    var mark := LastMark(ref).value;
    MarkBehindScheme(ref, mark);
    var location, remainder := ref[..mark], ref[..mark][|SCHEME|..];
    var slash := IndexOf(remainder, '/');
    Glued(ref, mark, |SCHEME|, slash);
    assert remainder[slash] == '/';
  }

  lemma Glued(ref: string, mark: nat, scheme: nat, slash: nat)
    requires scheme <= mark && At(ref, MARK, mark) && SCHEME == ref[..scheme]
    requires slash < mark - scheme && ref[scheme + slash] == '/'
    ensures var remainder := ref[..mark][scheme..];
      ref == SCHEME + remainder[..slash] + "/" + remainder[slash + 1..] + MARK + ref[mark + |MARK|..]
  {
    assert ref == ref[..mark] + ref[mark..mark + |MARK|] + ref[mark + |MARK|..];
    var remainder := ref[..mark][scheme..];
    assert ref[..mark] == ref[..scheme] + remainder;
    assert remainder == remainder[..slash] + "/" + remainder[slash + 1..];
    assert ref[..mark] == SCHEME + remainder[..slash] + "/" + remainder[slash + 1..];
  }

  lemma MarkBehindScheme(ref: string, mark: nat)
    requires SCHEME <= ref && At(ref, MARK, mark)
    ensures |SCHEME| <= mark && SCHEME <= ref[..mark] && ref[mark..mark + |MARK|] == MARK
  {
    assert ref[mark] == ref[mark..mark + |MARK|][0] == '#';
    assert forall k :: 0 <= k < |SCHEME| ==> ref[k] == SCHEME[k] && SCHEME[k] != '#';
  }

  /** A reference is not exact when it lacks the scheme or the mark; all else that is refused is
      invalid. */
  lemma NotExactExactly(ref: string)
    ensures Binding(ref) == Err(NotExact) <==>
      !("gs://" <= ref) || !exists k :: 0 <= k <= |ref| && At(ref, "#generation=", k)
  {
    hide Segments, IndexOf;
  }
}
