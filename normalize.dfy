/** Validation and normalisation of the model's reply (app/routers/ai_match.py):
    the request's `target_id` and `mode` overwrite the model's, `results` is cut
    to `top_k`, and a list-valued `rationale` is joined into one string. */
module Normalize {
  import opened Wrappers
  import opened Text
  import opened Json

  /** What one rationale element contributes: its text when it is truthy,
      nothing otherwise. */
  function Fragment(x: Json, show: Json -> string): seq<string> {
    if Truthy(x) then [PyStr(x, show)] else []
  }

  /** The texts of the truthy elements of `xs`, in order. */
  function TruthyStrings(xs: seq<Json>, show: Json -> string): (r: seq<string>)
    ensures |r| <= |xs|
  {
    if xs == [] then [] else Fragment(xs[0], show) + TruthyStrings(xs[1..], show)
  }

  /** The texts of the truthy elements of `xs`, separated by single spaces. */
  function JoinRationale(xs: seq<Json>, show: Json -> string): string {
    Join(TruthyStrings(xs, show), ' ')
  }

  lemma TruthyStringsCons(x: Json, xs: seq<Json>, show: Json -> string)
    ensures TruthyStrings([x] + xs, show) == Fragment(x, show) + TruthyStrings(xs, show)
  {
    assert ([x] + xs)[1..] == xs;
  }

  lemma {:induction false} TruthyStringsConcat(xs: seq<Json>, ys: seq<Json>, show: Json -> string)
    ensures TruthyStrings(xs + ys, show) == TruthyStrings(xs, show) + TruthyStrings(ys, show)
  {
    if xs == [] {
      assert xs + ys == ys;
    } else {
      var x, rest := xs[0], xs[1..];
      assert xs + ys == [x] + (rest + ys);
      assert xs == [x] + rest;
      TruthyStringsCons(x, rest + ys, show);
      TruthyStringsConcat(rest, ys, show);
      TruthyStringsCons(x, rest, show);
      var f, a, b := Fragment(x, show), TruthyStrings(rest, show), TruthyStrings(ys, show);
      assert f + (a + b) == (f + a) + b;
    }
  }

  /** A falsy fragment (`None`, `False`, `0`, `""`, `[]`, `{}`) contributes
      nothing to the joined rationale. */
  lemma RationaleSkipsFalsy(xs: seq<Json>, x: Json, ys: seq<Json>, show: Json -> string)
    requires !Truthy(x)
    ensures JoinRationale(xs + [x] + ys, show) == JoinRationale(xs + ys, show)
  {
    TruthyStringsConcat(xs + [x], ys, show);
    TruthyStringsConcat(xs, [x], show);
    TruthyStringsConcat(xs, ys, show);
    assert [x][1..] == [];
    assert TruthyStrings([x], show) == [];
    assert TruthyStrings(xs, show) + [] == TruthyStrings(xs, show);
  }

  lemma RationaleExample(show: Json -> string)
    ensures JoinRationale([JStr("a"), JStr("b"), JStr("c")], show) == "a b c"
  {
    var xs := [JStr("a"), JStr("b"), JStr("c")];
    assert xs[1..] == [JStr("b"), JStr("c")] && xs[1..][1..] == [JStr("c")] && xs[1..][1..][1..] == [];
    assert TruthyStrings([JStr("c")], show) == ["c"];
    assert TruthyStrings(xs[1..], show) == ["b", "c"];
    assert TruthyStrings(xs, show) == ["a", "b", "c"];
    var ws := ["a", "b", "c"];
    assert ws[1..] == ["b", "c"] && ws[1..][1..] == ["c"];
    assert Join(["b", "c"], ' ') == "b c";
  }

  /** The texts of a list of string fragments. */
  function Texts(xs: seq<Json>): (r: seq<string>)
    requires forall k :: 0 <= k < |xs| ==> xs[k].JStr?
    ensures |r| == |xs| && forall k :: 0 <= k < |xs| ==> r[k] == xs[k].s
  {
    if xs == [] then [] else [xs[0].s] + Texts(xs[1..])
  }

  lemma {:induction false} TruthyStringsOfWords(xs: seq<Json>, show: Json -> string)
    requires forall k :: 0 <= k < |xs| ==> xs[k].JStr? && xs[k].s != []
    ensures TruthyStrings(xs, show) == Texts(xs)
  {
    if xs != [] {
      TruthyStringsOfWords(xs[1..], show);
    }
  }

  /** Joining non-empty single-word fragments loses nothing: splitting the
      rationale on spaces gives the fragments back. */
  lemma RationaleWords(xs: seq<Json>, show: Json -> string)
    requires xs != []
    requires forall k :: 0 <= k < |xs| ==> xs[k].JStr? && xs[k].s != [] && ' ' !in xs[k].s
    ensures Split(JoinRationale(xs, show), ' ') == Texts(xs)
  {
    TruthyStringsOfWords(xs, show);
    SplitJoin(Texts(xs), ' ');
  }

  /** One result after the rationale loop: a list-valued rationale is replaced
      by the space-separated texts of its truthy elements; anything else is kept. */
  function NormalizeResult(r: map<string, Json>, show: Json -> string): (out: map<string, Json>)
    ensures out.Keys == r.Keys
    ensures forall k :: k in r && k != "rationale" ==> out[k] == r[k]
    ensures "rationale" in out ==> !out["rationale"].JArr?
    ensures "rationale" in r && !r["rationale"].JArr? ==> out["rationale"] == r["rationale"]
    ensures "rationale" in r && r["rationale"].JArr? ==>
      out["rationale"] == JStr(JoinRationale(r["rationale"].items, show))
  {
    if "rationale" in r && r["rationale"].JArr? then
      r["rationale" := JStr(JoinRationale(r["rationale"].items, show))]
    else r
  }

  /** Normalising a result a second time changes nothing. */
  lemma NormalizeResultIdempotent(r: map<string, Json>, show: Json -> string)
    ensures NormalizeResult(NormalizeResult(r, show), show) == NormalizeResult(r, show)
  {
  }

  /** The first `n` elements of `xs`, or all of them when there are fewer. */
  function Take(xs: seq<Json>, n: nat): (r: seq<Json>)
    ensures |r| == Min(n, |xs|) && r == xs[..|r|]
  {
    if |xs| <= n then xs else xs[..n]
  }

  /** The loop over `results`: every element normalised, or None when one of
      them is not an object (`r.get` raises `AttributeError`). */
  function NormalizeAll(items: seq<Json>, show: Json -> string): (r: Option<seq<Json>>)
    ensures r.Some? <==> forall k :: 0 <= k < |items| ==> items[k].JObj?
    ensures r.Some? ==> |r.value| == |items|
    ensures r.Some? ==> forall k :: 0 <= k < |items| ==>
      r.value[k] == JObj(NormalizeResult(items[k].fields, show))
  {
    if items == [] then Some([])
    else if !items[0].JObj? then None
    else match NormalizeAll(items[1..], show)
      case None => None
      case Some(rest) => Some([JObj(NormalizeResult(items[0].fields, show))] + rest)
  }

  /** The shape check: a dict whose `results` is a list. */
  predicate WellShaped(data: Json) {
    data.JObj? && "results" in data.fields && data.fields["results"].JArr?
  }

  /** The dict `ai_match` returns after the shape check has passed, or None
      when the rationale loop raises. */
  function NormalizedBody(data: map<string, Json>, targetId: int, mode: string, topK: nat,
                          show: Json -> string): (r: Option<map<string, Json>>)
    requires "results" in data && data["results"].JArr?
    ensures r.Some? <==>
      forall k :: 0 <= k < Min(topK, |data["results"].items|) ==> data["results"].items[k].JObj?
    ensures r.Some? ==> r.value.Keys == data.Keys + {"target_id", "mode"}
    ensures r.Some? ==> r.value["target_id"] == JInt(targetId) && r.value["mode"] == JStr(mode)
    ensures r.Some? ==> forall k :: k in data && k != "target_id" && k != "mode" && k != "results" ==>
      r.value[k] == data[k]
    ensures r.Some? ==> r.value["results"].JArr?
    ensures r.Some? ==> |r.value["results"].items| == Min(topK, |data["results"].items|)
    ensures r.Some? ==> forall k :: 0 <= k < |r.value["results"].items| ==>
      data["results"].items[k].JObj? &&
      r.value["results"].items[k] == JObj(NormalizeResult(data["results"].items[k].fields, show))
  {
    var kept := Take(data["results"].items, topK);
    match NormalizeAll(kept, show)
    case None => None
    case Some(results) =>
      Some(data["target_id" := JInt(targetId)]["mode" := JStr(mode)]["results" := JArr(results)])
  }

  /** The statements of `ai_match` after the shape check, updating the parsed
      dict in place. `ok` is false when `r.get` raises on a result that is not
      an object. */
  method NormalizeInPlace(data: map<string, Json>, targetId: int, mode: string, topK: nat,
                          show: Json -> string) returns (ok: bool, out: map<string, Json>)
    requires "results" in data && data["results"].JArr?
    ensures ok == NormalizedBody(data, targetId, mode, topK, show).Some?
    ensures ok ==> out == NormalizedBody(data, targetId, mode, topK, show).value
  {
    var kept := Take(data["results"].items, topK);
    out := data["target_id" := JInt(targetId)];
    out := out["mode" := JStr(mode)];
    out := out["results" := JArr(kept)];
    var results := kept;
    var i := 0;
    while i < |results|
      invariant 0 <= i <= |results| == |kept|
      invariant forall k :: 0 <= k < i ==> kept[k].JObj? && results[k] == JObj(NormalizeResult(kept[k].fields, show))
      invariant forall k :: i <= k < |results| ==> results[k] == kept[k]
    {
      if !results[i].JObj? {
        return false, out;
      }
      var r := results[i].fields;
      if "rationale" in r && r["rationale"].JArr? {
        r := r["rationale" := JStr(JoinRationale(r["rationale"].items, show))];
      }
      results := results[i := JObj(r)];
      i := i + 1;
    }
    out := out["results" := JArr(results)];
    ok := true;
    assert NormalizeAll(kept, show).value == results;
  }
}
