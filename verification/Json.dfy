/** JSON texts without escapes and without blanks, written and read (RFC 8259).

The writer puts named texts together; the reader knows nothing of it and turns any text
into a tree.  `Denotes` says that a text is read as a tree whatever follows it. */
module Json {
  import opened Text
  import Decimal

  datatype Json =
    | Str(text: string)
    | Num(number: nat)
    | Bool(flag: bool)
    | Arr(items: seq<Json>)
    | Obj(members: seq<(string, Json)>)

  /** Printable characters that stand between quotes as they are. */
  predicate Plain(s: string) {
    forall i :: 0 <= i < |s| ==> ' ' <= s[i] <= '~' && s[i] != '"' && s[i] != '\\'
  }

  // ----- writing -----

  function Quoted(s: string): string { "\"" + s + "\"" }

  function Head(name: string): string { Quoted(name) + ":" }

  /** The members of an object, each a name and the text of its value. */
  datatype Fields = Last(name: string, text: string) | Field(name: string, text: string, rest: Fields)

  function FieldsText(f: Fields): string {
    match f
    case Last(name, text) => Head(name) + text
    case Field(name, text, rest) => Head(name) + (text + ("," + FieldsText(rest)))
  }

  function ObjectText(f: Fields): string { "{" + (FieldsText(f) + "}") }

  function ItemsText(texts: seq<string>): string
    requires texts != []
  {
    if |texts| == 1 then texts[0] else texts[0] + ("," + ItemsText(texts[1..]))
  }

  function ArrayText(texts: seq<string>): string {
    if texts == [] then "[]" else "[" + (ItemsText(texts) + "]")
  }

  lemma FieldLength(name: string, text: string, rest: Fields)
    ensures |FieldsText(Last(name, text))| == |name| + |text| + 3
    ensures |FieldsText(Field(name, text, rest))| == |name| + |text| + 4 + |FieldsText(rest)|
  {
  }

  lemma {:induction false} ItemsSnoc(texts: seq<string>, t: string)
    requires texts != []
    ensures |ItemsText(texts + [t])| == |ItemsText(texts)| + 1 + |t|
    decreases |texts|
  {
    assert (texts + [t])[1..] == texts[1..] + [t];
    if |texts| > 1 {
      ItemsSnoc(texts[1..], t);
    } else {
      assert texts[1..] + [t] == [t];
    }
  }

  // ----- reading -----

  /** The rest of a string behind its opening quote. */
  function ReadString(s: string): (r: Option<(string, string)>)
    ensures r.Some? ==> |r.value.1| < |s|
  {
    var i := IndexOf(s, '"');
    if i == |s| || '\\' in s[..i] then None else Some((s[..i], s[i + 1..]))
  }

  function DigitsLength(s: string): (n: nat)
    ensures n <= |s| && forall i :: 0 <= i < n ==> Decimal.IsDigit(s[i])
  {
    if s == "" || !Decimal.IsDigit(s[0]) then 0 else 1 + DigitsLength(s[1..])
  }

  /** One value at the front of `s`, and what follows it. */
  function ReadValue(s: string): (r: Option<(Json, string)>)
    ensures r.Some? ==> |r.value.1| < |s|
    decreases |s|, 0
  {
    if s == "" then None
    else if s[0] == '"' then
      match ReadString(s[1..])
      case None => None
      case Some((text, rest)) => Some((Str(text), rest))
    else if s[0] == '{' then
      match ReadMembers(s[1..])
      case None => None
      case Some((members, rest)) => Some((Obj(members), rest))
    else if s[0] == '[' then
      if "]" <= s[1..] then Some((Arr([]), s[2..]))
      else
        match ReadItems(s[1..])
        case None => None
        case Some((items, rest)) => Some((Arr(items), rest))
    else if Decimal.IsDigit(s[0]) then
      var n := DigitsLength(s);
      Some((Num(Decimal.Value(s[..n])), s[n..]))
    else if "true" <= s then Some((Bool(true), s[4..]))
    else if "false" <= s then Some((Bool(false), s[5..]))
    else None
  }

  /** The members up to the closing brace, and what follows it. */
  function ReadMembers(s: string): (r: Option<(seq<(string, Json)>, string)>)
    ensures r.Some? ==> |r.value.1| < |s|
    decreases |s|, 1
  {
    if s == "" || s[0] != '"' then None
    else
      match ReadString(s[1..])
      case None => None
      case Some((name, behind)) =>
        if behind == "" || behind[0] != ':' then None
        else
          match ReadValue(behind[1..])
          case None => None
          case Some((value, after)) =>
            if "}" <= after then Some(([(name, value)], after[1..]))
            else if "," <= after then
              match ReadMembers(after[1..])
              case None => None
              case Some((members, rest)) => Some(([(name, value)] + members, rest))
            else None
  }

  /** The items up to the closing bracket, and what follows it. */
  function ReadItems(s: string): (r: Option<(seq<Json>, string)>)
    ensures r.Some? ==> |r.value.1| < |s|
    decreases |s|, 1
  {
    match ReadValue(s)
    case None => None
    case Some((value, after)) =>
      if "]" <= after then Some(([value], after[1..]))
      else if "," <= after then
        match ReadItems(after[1..])
        case None => None
        case Some((items, rest)) => Some(([value] + items, rest))
      else None
  }

  /** A whole text. */
  function Read(text: string): Option<Json> {
    match ReadValue(text)
    case None => None
    case Some((j, rest)) => if rest == "" then Some(j) else None
  }

  // ----- what texts are read as -----

  predicate Stops(rest: string) { rest == "" || !Decimal.IsDigit(rest[0]) }

  ghost predicate ReadsAs(text: string, j: Json, rest: string) {
    ReadValue(text + rest) == Some((j, rest))
  }

  ghost predicate Denotes(text: string, j: Json) {
    forall rest: string :: Stops(rest) ==> ReadsAs(text, j, rest)
  }

  ghost predicate MembersReadAs(f: Fields, ms: seq<(string, Json)>, rest: string) {
    ReadMembers(FieldsText(f) + ("}" + rest)) == Some((ms, rest))
  }

  ghost predicate FieldsDenote(f: Fields, ms: seq<(string, Json)>) {
    forall rest: string :: MembersReadAs(f, ms, rest)
  }

  lemma DenotesText(text: string, j: Json)
    requires Denotes(text, j)
    ensures Read(text) == Some(j)
  {
    assert ReadsAs(text, j, "");
    assert text + "" == text;
  }

  lemma {:induction false} IndexOfQuote(s: string, rest: string)
    requires '"' !in s
    ensures IndexOf(s + ("\"" + rest), '"') == |s|
    decreases |s|
  {
    if s != "" {
      assert (s + ("\"" + rest))[1..] == s[1..] + ("\"" + rest);
      IndexOfQuote(s[1..], rest);
    }
  }

  lemma ReadStringPlain(s: string, rest: string)
    requires Plain(s)
    ensures ReadString(s + ("\"" + rest)) == Some((s, rest))
  {
    IndexOfQuote(s, rest);
    var all := s + ("\"" + rest);
    assert all[..|s|] == s && all[|s| + 1..] == rest;
  }

  lemma StringDenotes(s: string)
    requires Plain(s)
    ensures Denotes(Quoted(s), Str(s))
  {
    forall rest: string | Stops(rest)
      ensures ReadsAs(Quoted(s), Str(s), rest)
    {
      assert (Quoted(s) + rest)[1..] == s + ("\"" + rest);
      ReadStringPlain(s, rest);
    }
  }

  lemma {:induction false} DigitsEnd(d: string, rest: string)
    requires Stops(rest) && forall i :: 0 <= i < |d| ==> Decimal.IsDigit(d[i])
    ensures DigitsLength(d + rest) == |d|
    decreases |d|
  {
    if d == "" {
      assert d + rest == rest;
    } else {
      assert (d + rest)[1..] == d[1..] + rest;
      DigitsEnd(d[1..], rest);
    }
  }

  lemma NumberDenotes(n: nat)
    ensures Denotes(Decimal.Print(n), Num(n))
  {
    var d := Decimal.Print(n);
    forall rest: string | Stops(rest)
      ensures ReadsAs(d, Num(n), rest)
    {
      DigitsEnd(d, rest);
      Decimal.ValueOfPrint(n);
      assert (d + rest)[..|d|] == d && (d + rest)[|d|..] == rest;
      assert Decimal.IsDigit((d + rest)[0]);
    }
  }

  lemma FalseDenotes()
    ensures Denotes("false", Bool(false))
  {
    forall rest: string | Stops(rest)
      ensures ReadsAs("false", Bool(false), rest)
    {
      assert ("false" + rest)[5..] == rest && ("false" + rest)[0] == 'f';
    }
  }

  lemma HeadOpens(name: string, behind: string)
    ensures
      var s := Head(name) + behind;
      s[0] == '"' && s[1..] == name + ("\"" + (":" + behind))
  {
  }

  lemma ItemRead(text: string, j: Json, after: string)
    requires Denotes(text, j) && Stops(after)
    ensures ReadValue(text + after) == Some((j, after))
  {
    assert ReadsAs(text, j, after);
  }

  /** One member, whatever comes behind its value. */
  lemma ReadMember(name: string, text: string, value: Json, after: string)
    requires Plain(name) && Denotes(text, value) && Stops(after)
    ensures
      ReadMembers(Head(name) + (text + after)) ==
      if "}" <= after then Some(([(name, value)], after[1..]))
      else if "," <= after then
        match ReadMembers(after[1..])
        case None => None
        case Some((members, rest)) => Some(([(name, value)] + members, rest))
      else None
  {
    hide ReadValue, ReadString, Plain, Stops;
    var behind := ":" + (text + after);
    HeadOpens(name, text + after);
    ReadStringPlain(name, behind);
    assert behind[0] == ':' && behind[1..] == text + after;
    ItemRead(text, value, after);
  }

  lemma LastReads(name: string, text: string, value: Json, rest: string)
    requires Plain(name) && Denotes(text, value)
    ensures MembersReadAs(Last(name, text), [(name, value)], rest)
  {
    hide ReadMembers, Head, Denotes, Plain;
    var after := "}" + rest;
    ReadMember(name, text, value, after);
    assert after[1..] == rest;
    Associate(Head(name), text, after);
  }

  lemma Associate(a: string, b: string, c: string)
    ensures (a + b) + c == a + (b + c)
  {
  }

  lemma LastDenotes(name: string, text: string, value: Json)
    requires Plain(name) && Denotes(text, value)
    ensures FieldsDenote(Last(name, text), [(name, value)])
  {
    forall rest: string
      ensures MembersReadAs(Last(name, text), [(name, value)], rest)
    {
      LastReads(name, text, value, rest);
    }
  }

  lemma FieldDenotes(name: string, text: string, value: Json, f: Fields, ms: seq<(string, Json)>)
    requires Plain(name) && Denotes(text, value) && FieldsDenote(f, ms)
    ensures FieldsDenote(Field(name, text, f), [(name, value)] + ms)
  {
    hide ReadMembers;
    forall rest: string
      ensures MembersReadAs(Field(name, text, f), [(name, value)] + ms, rest)
    {
      var after := "," + (FieldsText(f) + ("}" + rest));
      ReadMember(name, text, value, after);
      assert MembersReadAs(f, ms, rest);
      assert after[1..] == FieldsText(f) + ("}" + rest);
      Regroup(Head(name), text, FieldsText(f), "}" + rest);
    }
  }

  lemma Regroup(a: string, b: string, c: string, d: string)
    ensures (a + (b + ("," + c))) + d == a + (b + ("," + (c + d)))
  {
  }

  lemma ObjectDenotes(f: Fields, ms: seq<(string, Json)>)
    requires FieldsDenote(f, ms)
    ensures Denotes(ObjectText(f), Obj(ms))
  {
    hide ReadMembers, FieldsText;
    forall rest: string | Stops(rest)
      ensures ReadsAs(ObjectText(f), Obj(ms), rest)
    {
      assert MembersReadAs(f, ms, rest);
      assert (ObjectText(f) + rest)[1..] == FieldsText(f) + ("}" + rest);
    }
  }

  lemma {:induction false} ItemsDenote(texts: seq<string>, js: seq<Json>, rest: string)
    requires |texts| == |js| > 0 && forall i :: 0 <= i < |texts| ==> Denotes(texts[i], js[i])
    ensures ReadItems(ItemsText(texts) + ("]" + rest)) == Some((js, rest))
    decreases |texts|
  {
    hide ReadValue, Denotes;
    if |texts| == 1 {
      ItemRead(texts[0], js[0], "]" + rest);
      assert ("]" + rest)[1..] == rest && js == [js[0]];
    } else {
      var after := "," + (ItemsText(texts[1..]) + ("]" + rest));
      ItemRead(texts[0], js[0], after);
      ItemsDenote(texts[1..], js[1..], rest);
      assert after[1..] == ItemsText(texts[1..]) + ("]" + rest);
      assert ItemsText(texts) + ("]" + rest) == texts[0] + after;
      assert js == [js[0]] + js[1..];
    }
  }

  lemma NoValueAtBracket(text: string, j: Json)
    requires Denotes(text, j)
    ensures text != "" && text[0] != ']'
  {
    assert ReadsAs(text, j, "");
    assert text + "" == text;
  }

  lemma EmptyArrayRead(rest: string)
    ensures ReadsAs(ArrayText([]), Arr([]), rest)
  {
    hide ReadItems;
    var all := "[]" + rest;
    assert all[0] == '[' && all[1..] == "]" + rest && all[2..] == rest;
  }

  lemma ArrayRead(texts: seq<string>, js: seq<Json>, rest: string)
    requires texts != [] && ItemsText(texts) != "" && ItemsText(texts)[0] != ']'
    requires ReadItems(ItemsText(texts) + ("]" + rest)) == Some((js, rest))
    ensures ReadsAs(ArrayText(texts), Arr(js), rest)
  {
    hide ReadItems, ItemsText;
    var all := ArrayText(texts) + rest;
    var behind := ItemsText(texts) + ("]" + rest);
    assert all[0] == '[' && all[1..] == behind;
    assert behind[0] == ItemsText(texts)[0];
  }

  lemma ArrayDenotes(texts: seq<string>, js: seq<Json>)
    requires |texts| == |js| && forall i :: 0 <= i < |texts| ==> Denotes(texts[i], js[i])
    ensures Denotes(ArrayText(texts), Arr(js))
  {
    var text := ArrayText(texts);
    if texts == [] {
      assert js == [];
      forall rest: string | Stops(rest)
        ensures ReadsAs(text, Arr(js), rest)
      {
        EmptyArrayRead(rest);
      }
    } else {
      forall rest: string | Stops(rest)
        ensures ReadsAs(text, Arr(js), rest)
      {
        ItemsDenote(texts, js, rest);
        NoValueAtBracket(texts[0], js[0]);
        FirstOfItems(texts);
        ArrayRead(texts, js, rest);
      }
    }
  }

  lemma FirstOfItems(texts: seq<string>)
    requires texts != [] && texts[0] != ""
    ensures ItemsText(texts) != "" && ItemsText(texts)[0] == texts[0][0]
  {
  }

  /** The members of an object have these names, in this order. */
  predicate Named(ms: seq<(string, Json)>, names: seq<string>) {
    |ms| == |names| && forall i :: 0 <= i < |ms| ==> ms[i].0 == names[i]
  }
}
