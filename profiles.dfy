/** A stored profile and `profile_to_dict`, which turns one into the payload
    the prompt is built from (app/routers/ai_match.py). */
module Profiles {
  import opened Wrappers
  import opened Text

  /** A row of the `profiles` table; the nullable text columns are options. */
  datatype Profile = Profile(
    id: int,
    childAge: int,
    city: string,
    strengths: Option<string>,
    needs: Option<string>,
    notes: Option<string>)

  /** The dictionary `profile_to_dict` returns. */
  datatype Payload = Payload(
    id: int,
    age: int,
    city: string,
    strengths: seq<string>,
    needs: seq<string>,
    notes: string,
    connectionPreference: string)

  /** An item of a parsed list: non-empty, no surrounding whitespace, no comma. */
  predicate IsItem(s: string) {
    s != [] && Trimmed(s) && ',' !in s
  }

  /** Every element of `items` is an item. */
  predicate AllItems(items: seq<string>) {
    forall k :: 0 <= k < |items| ==> IsItem(items[k])
  }

  /** Python's `field or ""` on a nullable text column. */
  function OrEmpty(field: Option<string>): string {
    match field
    case None => ""
    case Some(s) => s
  }

  /** Each piece stripped of surrounding whitespace, blank pieces dropped. */
  function KeepStripped(pieces: seq<string>): (r: seq<string>)
    ensures |r| <= |pieces|
    ensures forall k :: 0 <= k < |r| ==> r[k] != [] && Trimmed(r[k])
  {
    if pieces == [] then []
    else
      var s := Strip(pieces[0]);
      (if s != [] then [s] else []) + KeepStripped(pieces[1..])
  }

  /** Stripping keeps no character that was not in the piece, so pieces
      without commas give items without commas. */
  lemma {:induction false} KeepStrippedNoComma(pieces: seq<string>)
    requires forall k :: 0 <= k < |pieces| ==> ',' !in pieces[k]
    ensures forall k :: 0 <= k < |KeepStripped(pieces)| ==> ',' !in KeepStripped(pieces)[k]
  {
    if pieces != [] {
      StripSlice(pieces[0]);
      assert ',' !in Strip(pieces[0]);
      KeepStrippedNoComma(pieces[1..]);
    }
  }

  /** The list a comma-separated column becomes: its comma-separated pieces,
      stripped, with the blank ones dropped. */
  function ParseList(field: Option<string>): (r: seq<string>)
    ensures AllItems(r)
  {
    KeepStrippedNoComma(Split(OrEmpty(field), ','));
    KeepStripped(Split(OrEmpty(field), ','))
  }

  function ProfileToDict(p: Profile): (r: Payload)
    ensures r.id == p.id && r.age == p.childAge && r.city == p.city
    ensures r.strengths == ParseList(p.strengths) && r.needs == ParseList(p.needs)
    ensures AllItems(r.strengths) && AllItems(r.needs)
    ensures r.notes == (if p.notes.Some? then p.notes.value else "")
    ensures r.connectionPreference == "both"
  {
    Payload(p.id, p.childAge, p.city, ParseList(p.strengths), ParseList(p.needs),
            OrEmpty(p.notes), "both")
  }

  /** An absent or empty column gives the empty list. */
  lemma ParseListEmpty(field: Option<string>)
    requires field == None || field == Some("")
    ensures ParseList(field) == []
  {
    assert Split("", ',') == [""];
    assert Strip("") == "";
  }

  lemma {:induction false} KeepStrippedConcat(p: seq<string>, q: seq<string>)
    ensures KeepStripped(p + q) == KeepStripped(p) + KeepStripped(q)
  {
    if p == [] {
      assert p + q == q;
    } else {
      assert (p + q)[1..] == p[1..] + q;
      KeepStrippedConcat(p[1..], q);
    }
  }

  /** Items keep comma order: the list of `a,b` is the list of `a` followed by
      the list of `b`. */
  lemma ParseListConcat(a: string, b: string)
    ensures ParseList(Some(a + "," + b)) == ParseList(Some(a)) + ParseList(Some(b))
  {
    SplitConcat(a, b, ',');
    KeepStrippedConcat(Split(a, ','), Split(b, ','));
  }

  /** A column without a comma gives its stripped text, or nothing when blank. */
  lemma ParseListSingle(s: string)
    requires ',' !in s
    ensures ParseList(Some(s)) == if Strip(s) == [] then [] else [Strip(s)]
  {
    SplitNoSeparator(s, ',');
  }

  lemma {:induction false} KeepStrippedItems(items: seq<string>)
    requires AllItems(items)
    ensures KeepStripped(items) == items
  {
    if items != [] {
      assert IsItem(items[0]);
      StripTrimmed(items[0]);
      KeepStrippedItems(items[1..]);
      assert items == [items[0]] + items[1..];
    }
  }

  lemma ItemsHaveNoComma(items: seq<string>)
    requires AllItems(items)
    ensures forall k :: 0 <= k < |items| ==> ',' !in items[k]
  {
    forall k | 0 <= k < |items| ensures ',' !in items[k] {
      assert IsItem(items[k]);
    }
  }

  /** Text that splits into items parses to exactly those items. */
  lemma ParseListOfItems(text: string, items: seq<string>)
    requires Split(text, ',') == items
    requires AllItems(items)
    ensures ParseList(Some(text)) == items
  {
    assert ParseList(Some(text)) == KeepStripped(items);
    KeepStrippedItems(items);
  }

  /** Writing a list of items as comma-separated text and parsing it back
      gives the same list. */
  lemma ParseListRoundTrip(items: seq<string>)
    requires AllItems(items)
    ensures ParseList(Some(Join(items, ','))) == items
  {
    var text := Join(items, ',');
    if items == [] {
      assert text == "";
      ParseListEmpty(Some(""));
    } else {
      ItemsHaveNoComma(items);
      SplitJoin(items, ',');
      ParseListOfItems(text, items);
    }
  }

  /** Stripping the items of a list does not change it. */
  lemma ParseListItemsStripped(field: Option<string>)
    ensures forall k :: 0 <= k < |ParseList(field)| ==> Strip(ParseList(field)[k]) == ParseList(field)[k]
  {
    var r := ParseList(field);
    forall k | 0 <= k < |r| ensures Strip(r[k]) == r[k] {
      StripTrimmed(r[k]);
    }
  }
}
