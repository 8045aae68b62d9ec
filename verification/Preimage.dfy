/**
 The resource-binding hash preimage of tools/check_relay_contract.py.

 Text is UTF-8 here: each character stands for one byte, so the length of a value is the length
 the encoding writes.
 */
module Preimage {
  import opened Common
  import Decimal

  const PREFIX := "relay-resource-binding-v1|"

  function Encoded(value: Option<string>): string {
    if value.None? then "-1:" else Decimal.Print(|value.value|) + ":" + value.value
  }

  function AllEncoded(values: seq<Option<string>>): seq<string> {
    seq(|values|, k requires 0 <= k < |values| => Encoded(values[k]))
  }

  function Preimage(values: seq<Option<string>>): string {
    PREFIX + Join(AllEncoded(values), "|")
  }

  function Lookup(values: map<string, string>, fields: seq<string>): (looked: seq<Option<string>>)
    ensures |looked| == |fields|
    ensures forall k :: 0 <= k < |fields| ==>
      if fields[k] in values then looked[k].Some? && looked[k].value == values[fields[k]] else looked[k].None?
  {
    seq(|fields|, k requires 0 <= k < |fields| => if fields[k] in values then Some(values[fields[k]]) else None)
  }

  /** A preimage is the version tag, then the values in order with bars between them: no value as
      a length of minus one, any other as its length and its bytes. */
  lemma PreimageGrows(values: seq<Option<string>>, value: Option<string>)
    ensures Preimage([]) == "relay-resource-binding-v1|"
    ensures Preimage(values + [value])
            == Preimage(values) + (if values == [] then "" else "|")
               + match value
                 case None => "-1:"
                 case Some(text) => Decimal.Print(|text|) + ":" + text
  {
    var parts := AllEncoded(values);
    assert AllEncoded([]) == [] && Join([], "|") == "" && PREFIX + "" == PREFIX;
    assert AllEncoded(values + [value]) == parts + [Encoded(value)];
    JoinGrows(parts, Encoded(value), "|");
    assert parts == [] ==> Join(parts, "|") == "";
    hide Decimal.Print, Join, AllEncoded;
    Appended(Join(parts, "|"), if values == [] then "" else "|", Encoded(value));
  }

  lemma Appended(a: string, b: string, c: string)
    ensures PREFIX + (a + b + c) == PREFIX + a + b + c
    ensures a == "" && b == "" ==> a + b + c == c
  {
  }

  /** The encoding loop. */
  method BuildPreimage(fields: seq<string>, values: map<string, string>) returns (preimage: string)
    ensures preimage == Preimage(Lookup(values, fields))
  {
    var encoded: seq<string> := [];
    for k := 0 to |fields|
      invariant encoded == AllEncoded(Lookup(values, fields))[..k]
    {
      if fields[k] !in values {
        encoded := encoded + ["-1:"];
      } else {
        var rendered := values[fields[k]];
        encoded := encoded + [Decimal.Print(|rendered|) + ":" + rendered];
      }
    }
    assert encoded == AllEncoded(Lookup(values, fields));
    preimage := PREFIX + Join(encoded, "|");
  }

  /** What the text before a colon announces: no value, or one of so many bytes. */
  datatype Announcement = Absent | Present(size: nat) {
    function Length(): nat { if Absent? then 0 else size }

    function Value(body: string): Option<string>
      requires Length() <= |body|
    {
      if Absent? then None else Some(body[..size])
    }
  }

  function Announced(head: string): Option<Announcement> {
    if head == "-1" then Some(Absent)
    else if Decimal.IsNumeral(head) && Decimal.Print(Decimal.Value(head)) == head
    then Some(Present(Decimal.Value(head)))
    else None
  }

  datatype Read = Read(value: Option<string>, rest: string)

  /** A reader of one value. */
  function ReadOne(s: string): (r: Option<Read>)
    ensures r.Some? ==> |r.value.rest| < |s|
  {
    var k := IndexOf(s, ':');
    if k == |s| || Announced(s[..k]).None? then None
    else
      var announced, body := Announced(s[..k]).value, s[k + 1..];
      if announced.Length() > |body| then None else Some(Read(announced.Value(body), body[announced.Length()..]))
  }

  /** A reader of joined values. */
  function DecodeFields(s: string): Option<seq<Option<string>>> {
    var one := ReadOne(s);
    if one.None? then None
    else if one.value.rest == "" then Some([one.value.value])
    else if one.value.rest[0] != '|' then None
    else
      var more := DecodeFields(one.value.rest[1..]);
      if more.None? then None else Some([one.value.value] + more.value)
  }

  /** A reader of preimages. */
  function Decode(s: string): Option<seq<Option<string>>> {
    if !(PREFIX <= s) then None
    else if s == PREFIX then Some([])
    else DecodeFields(s[|PREFIX|..])
  }

  lemma EncodedIsRead(value: Option<string>, rest: string)
    ensures ReadOne(Encoded(value) + rest) == Some(Read(value, rest))
  {
    hide Decimal.Print, Decimal.Value, IndexOf;
    var s := Encoded(value) + rest;
    if value.None? {
      IndexOfFirst("-1", ':', rest);
      assert s == "-1" + [':'] + rest;
    } else {
      var n := |value.value|;
      var head := Decimal.Print(n);
      assert ':' !in head;
      IndexOfFirst(head, ':', value.value + rest);
      assert s == head + [':'] + (value.value + rest);
      assert s[..|head|] == head;
      Decimal.ValueOfPrint(n);
      assert head != "-1" by {
        assert Decimal.IsDigit(head[0]) && !Decimal.IsDigit('-');
      }
      assert s[|head| + 1..] == value.value + rest;
    }
  }

  lemma ReadIsEncoded(s: string)
    requires ReadOne(s).Some?
    ensures s == Encoded(ReadOne(s).value.value) + ReadOne(s).value.rest
  {
    hide IndexOf, Decimal.Print, Decimal.Value;
    var k := IndexOf(s, ':');
    var announced, body := Announced(s[..k]).value, s[k + 1..];
    assert s == s[..k] + ":" + body;
    assert body == body[..announced.Length()] + body[announced.Length()..];
    if announced.Absent? {
      assert s == "-1:" + body;
    } else {
      assert s == s[..k] + ":" + body[..announced.size] + body[announced.size..];
    }
  }

  lemma {:induction false} DecodesFields(values: seq<Option<string>>)
    requires values != []
    ensures DecodeFields(Join(AllEncoded(values), "|")) == Some(values)
  {
    hide ReadOne, Encoded;
    var parts := AllEncoded(values);
    if |values| == 1 {
      EncodedIsRead(values[0], "");
      assert parts[0] + "" == parts[0] == Encoded(values[0]) == Join(parts, "|");
      assert values == [values[0]];
    } else {
      assert parts[1..] == AllEncoded(values[1..]);
      var more := Join(parts[1..], "|");
      EncodedIsRead(values[0], "|" + more);
      assert Join(parts, "|") == parts[0] + ("|" + more);
      assert ("|" + more)[1..] == more;
      DecodesFields(values[1..]);
      assert [values[0]] + values[1..] == values;
    }
  }

  lemma {:induction false} DecodedEncodes(s: string)
    requires DecodeFields(s).Some?
    ensures DecodeFields(s).value != [] && Join(AllEncoded(DecodeFields(s).value), "|") == s
    decreases |s|
  {
    hide ReadOne, Encoded;
    var values, one := DecodeFields(s).value, ReadOne(s).value;
    ReadIsEncoded(s);
    var parts := AllEncoded(values);
    if one.rest == "" {
      assert parts[0] + "" == parts[0];
    } else {
      DecodedEncodes(one.rest[1..]);
      assert values[1..] == DecodeFields(one.rest[1..]).value;
      assert parts[1..] == AllEncoded(values[1..]);
      assert "|" + one.rest[1..] == one.rest;
      assert parts[0] + "|" + one.rest[1..] == parts[0] + ("|" + one.rest[1..]);
    }
  }

  /** A preimage determines its values, whatever bytes they hold, and nothing else decodes. */
  lemma DecodeInvertsExactly(s: string, values: seq<Option<string>>)
    ensures Decode(s) == Some(values) <==> s == Preimage(values)
  {
    hide DecodeFields, Encoded;
    if s == Preimage(values) {
      assert s[|PREFIX|..] == Join(AllEncoded(values), "|");
      if values != [] {
        DecodesFields(values);
        EncodedNotEmpty(values);
      } else {
        assert AllEncoded(values) == [];
      }
    }
    if Decode(s) == Some(values) {
      assert s == PREFIX + s[|PREFIX|..];
      if s == PREFIX {
        assert AllEncoded(values) == [];
      } else {
        DecodedEncodes(s[|PREFIX|..]);
      }
    }
  }

  lemma EncodedNotEmpty(values: seq<Option<string>>)
    requires values != []
    ensures Join(AllEncoded(values), "|") != ""
  {
    hide Decimal.Print;
    assert |AllEncoded(values)[0]| > 0;
  }

  /** Different value lists have different preimages. */
  lemma PreimagesDiffer(a: seq<Option<string>>, b: seq<Option<string>>)
    requires Preimage(a) == Preimage(b)
    ensures a == b
  {
    hide Decode, Preimage;
    DecodeInvertsExactly(Preimage(a), a);
    DecodeInvertsExactly(Preimage(b), b);
  }
}
