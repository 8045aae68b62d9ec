/** The transaction wrapper of a migration source (tools/target_schema_migrations.py). */
module TransactionWrapper {
  import opened Common

  const BEGIN := "\nBEGIN;\n"
  const COMMIT := "COMMIT;"

  predicate EndsWith(s: string, suffix: string) { |suffix| <= |s| && s[|s| - |suffix|..] == suffix }

  /** `_transactional_sql`: the text without its transaction wrapper, if it has one. */
  function Unwrapped(text: string): Option<string> {
    var begin := FirstAt(text, BEGIN, 0);
    if begin.None? || !EndsWith(TrimEnd(text), COMMIT) then None
    else
      var once := TrimEnd(text[..begin.value] + "\n" + text[begin.value + |BEGIN|..]);
      Some(TrimEnd(if EndsWith(once, COMMIT) then once[..|once| - |COMMIT|] else once))
  }

  /** A text with the wrapper: a first line that begins the transaction, and a commit at the end. */
  predicate Wrapped(text: string, head: string, body: string, space: string) {
    && text == head + "\nBEGIN;\n" + body + "COMMIT;" + space
    && (forall j :: 0 <= j < |head| ==> !At(text, "\nBEGIN;\n", j))
    && forall k :: 0 <= k < |space| ==> IsSpace(space[k])
  }

  lemma BeginsAt(text: string, head: string, rest: string)
    requires text == head + "\nBEGIN;\n" + rest && forall j :: 0 <= j < |head| ==> !At(text, "\nBEGIN;\n", j)
    ensures FirstAt(text, BEGIN, 0) == Some(|head|) && text[..|head|] == head && text[|head| + |BEGIN|..] == rest
  {
    assert text[|head|..|head| + 8] == "\nBEGIN;\n";
    assert At(text, BEGIN, |head|);
  }

  lemma CommitEnds(front: string, space: string)
    requires forall k :: 0 <= k < |space| ==> IsSpace(space[k])
    ensures TrimEnd(front + "COMMIT;" + space) == front + "COMMIT;" && EndsWith(front + "COMMIT;", COMMIT)
    ensures (front + "COMMIT;")[..|front + "COMMIT;"| - |COMMIT|] == front
  {
    hide TrimEnd;
    var all := front + "COMMIT;";
    assert all[|all| - 7..] == "COMMIT;" && all[|all| - 1] == ';';
    TrimEndOf(all, space);
  }

  /** Unwrapping takes the wrapper away and nothing else but white space at the end. */
  lemma UnwrappedOf(text: string, head: string, body: string, space: string)
    requires Wrapped(text, head, body, space)
    ensures Unwrapped(text) == Some(TrimEnd(head + "\n" + body))
  {
    hide TrimEnd, FirstAt, EndsWith;
    var rest, front := body + "COMMIT;" + space, head + "\nBEGIN;\n" + body;
    assert text == head + "\nBEGIN;\n" + rest == front + "COMMIT;" + space;
    BeginsAt(text, head, rest);
    CommitEnds(front, space);
    assert head + "\n" + rest == head + "\n" + body + "COMMIT;" + space;
    CommitEnds(head + "\n" + body, space);
  }

  /** Every text that unwraps has the wrapper. */
  lemma UnwrappedIsWrapped(text: string) returns (head: string, body: string, space: string)
    requires Unwrapped(text).Some?
    ensures Wrapped(text, head, body, space)
  {
    var begin, front := FirstAt(text, BEGIN, 0).value, TrimEnd(text);
    hide TrimEnd, FirstAt, Unwrapped;
    CommitBehindBegin(text, front, begin);
    head, body, space := text[..begin], front[begin + 8..|front| - 7], text[|front|..];
    CutApart(text, front, begin);
  }

  lemma CutApart(text: string, front: string, begin: nat)
    requires front <= text && EndsWith(front, COMMIT) && At(text, BEGIN, begin) && begin + 8 <= |front| - 7
    ensures text == text[..begin] + "\nBEGIN;\n" + front[begin + 8..|front| - 7] + "COMMIT;" + text[|front|..]
  {
    assert text == front + text[|front|..];
    assert front == front[..begin] + front[begin..begin + 8] + front[begin + 8..|front| - 7] + front[|front| - 7..];
    assert front[..begin] == text[..begin] && front[begin..begin + 8] == text[begin..begin + 8];
  }

  lemma CommitBehindBegin(text: string, front: string, begin: nat)
    requires front <= text && EndsWith(front, COMMIT) && At(text, BEGIN, begin)
    requires forall k :: |front| <= k < |text| ==> IsSpace(text[k])
    ensures begin + |BEGIN| <= |front| - |COMMIT|
  {
    var c := |front| - |COMMIT|;
    assert text[begin..begin + 8][1] == text[begin + 1] == 'B';
    assert text[begin..begin + 8][7] == text[begin + 7] == '\n' && text[begin..begin + 8][0] == text[begin];
    assert forall k :: 0 <= k < 7 ==> front[c..][k] == text[c + k] == COMMIT[k];
  }

  /** Exactly the texts with the wrapper unwrap. */
  lemma UnwrapsExactly(text: string)
    ensures Unwrapped(text).Some? <==> exists head, body, space :: Wrapped(text, head, body, space)
  {
    if Unwrapped(text).Some? {
      var head, body, space := UnwrappedIsWrapped(text);
    }
    if head, body, space :| Wrapped(text, head, body, space) {
      UnwrappedOf(text, head, body, space);
    }
  }
}
