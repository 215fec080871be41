# Profile matching pipeline, modelled in Dafny

This project models the matching endpoint `POST /ai/match` of a small profile
backend (`app/routers/ai_match.py`). Given a target profile id, the handler:

1. loads the target by primary key and answers 404 when it is missing;
2. computes an inclusive age corridor around the target's age (±3 years up to
   age 12, ±4 from 13 on);
3. queries the `profiles` table for other profiles inside that corridor,
   optionally in the target's city, capped at `max_candidates`;
4. answers `{target_id, mode, results: []}` straight away when nothing qualifies;
5. turns the target and every candidate into a prompt payload (`profile_to_dict`:
   the comma-separated `strengths` and `needs` become lists of trimmed,
   non-empty items);
6. asks a language model, parses its reply as JSON and checks its shape (502 on
   each failure);
7. overwrites `target_id` and `mode` with the request's values, cuts `results` to
   `top_k`, and joins a list-valued `rationale` into one space-separated string.

Modules:

- `Wrappers` (wrappers.dfy): `Option`, `Result`, `Min`.
- `Text` (text.dfy): Python's `str.strip()`, `str.split(sep)` and `sep.join(parts)`,
  with their round trips (`Join(Split(s)) == s`, and `Split(Join(parts)) == parts` for a non-empty list of parts
  that do not contain the separator)
  and a uniqueness characterisation of `Strip`.
- `Json` (json.dfy): the JSON values the handler works with (null, booleans,
  integers, finite numbers, strings of Unicode scalars, arrays, objects) and
  Python truthiness on them.
- `Profiles` (profiles.dfy): the table row, `profile_to_dict` and the list parser.
- `Prefilter` (prefilter.dfy): the primary-key lookup, the age corridor, and the
  candidate query as a sequence filter followed by a prefix.
- `Normalize` (normalize.dfy): the reply normalisation. `NormalizedBody` specifies
  it. `NormalizeInPlace` is the handler's statements, including the loop that
  rewrites each result's `rationale`, proved equal to `NormalizedBody`.
- `AiMatch` (ai_match.dfy): the handler as a method (`Match`) proved equal to the
  function `MatchOutcome`, plus the end-to-end lemmas.

The handler's collaborators are parameters:

- The profile table is a `seq<Profile>`.
- The model call is a function `llm: PromptInput -> Result<string, string>`.
  `PromptInput` holds the arguments of `build_user_prompt`. The prompt text is a
  fixed system prompt plus a function of those arguments, so a model of the
  gateway on `PromptInput` loses nothing.
- `json.loads` is a function `parse: string -> Result<Json, string>`.
- Python's `str()` of a non-string JSON value is a function `show: Json -> string`.
  `str()` of a string is the string itself, and the model states that directly
  (`Json.PyStr`).

The method `AiMatch.Match` returns a second result, `asked`. It is the request
sent to the model, or `None` when the model is not called. "The model is never
called" is stated through `asked`, and by lemmas showing that the outcome does
not depend on `llm` in those branches.

Two behaviours of the handler are easy to miss:

- The rationale join keeps the truthy fragments (app/routers/ai_match.py:100),
  so `0`, `0.0`, `False`, `None`, `[]` and `{}` are dropped as well as `""`.
  `Normalize.RationaleSkipsFalsy` states this rule.
- A `results` element that is not an object raises `AttributeError` at
  app/routers/ai_match.py:99. Nothing catches it, so the reply is a 500, not a
  502. The model has the outcome `Unhandled` for this
  (`AiMatch.NonObjectResultIsUnhandled`). Elements past `top_k` are dropped
  before the loop, so they never raise.

## Model

| member | source | states |
|---|---|---|
| `Text.TrimStart` | app/routers/ai_match.py:17-18 | the leading-whitespace trim is no longer than its input and its result does not start with whitespace |
| `Text.TrimEnd` | app/routers/ai_match.py:17-18 | the trailing-whitespace trim is no longer than its input and its result does not end with whitespace |
| `Text.TrimStartSuffix` | app/routers/ai_match.py:17-18 | the leading trim keeps a suffix of the string and removes only whitespace |
| `Text.TrimEndPrefix` | app/routers/ai_match.py:17-18 | the trailing trim keeps a prefix of the string and removes only whitespace |
| `Text.Strip` | app/routers/ai_match.py:17-18 | `s.strip()` has whitespace at neither end |
| `Text.StripSlice` | app/routers/ai_match.py:17-18 | `s.strip()` is one contiguous slice of `s`, and everything before and after that slice is whitespace |
| `Text.StripUnique` | app/routers/ai_match.py:17-18 | any split of `s` into whitespace, a trimmed middle and whitespace has that middle equal to `s.strip()` |
| `Text.StripIdempotent` | app/routers/ai_match.py:17-18 | stripping twice is stripping once |
| `Text.StripTrimmed` | app/routers/ai_match.py:17-18 | a string with whitespace at neither end is its own strip |
| `Text.Split` | app/routers/ai_match.py:17-18 | `s.split(sep)` has at least one piece and no piece contains `sep` |
| `Text.JoinSplit` | app/routers/ai_match.py:17-18 | joining the pieces of `s.split(sep)` with `sep` gives back `s` |
| `Text.SplitConcat` | app/routers/ai_match.py:17-18 | the pieces of `a + sep + b` are the pieces of `a` followed by the pieces of `b` |
| `Text.SplitNoSeparator` | app/routers/ai_match.py:17-18 | a string without `sep` splits into itself alone |
| `Text.SplitJoin` | app/routers/ai_match.py:100 | joining a non-empty list of separator-free parts and splitting again gives the parts back |
| `Profiles.KeepStripped` | app/routers/ai_match.py:17-18 | `[s.strip() for s in pieces if s.strip()]` has no more items than pieces, each non-empty and trimmed |
| `Profiles.KeepStrippedNoComma` | app/routers/ai_match.py:17-18 | pieces without commas give items without commas |
| `Profiles.ParseList` | app/routers/ai_match.py:17-18 | every item of a parsed `strengths`/`needs` column is non-empty, has no surrounding whitespace and no comma |
| `Profiles.ParseListEmpty` | app/routers/ai_match.py:17-18 | an absent or empty column parses to `[]` |
| `Profiles.ParseListConcat` | app/routers/ai_match.py:17-18 | items keep comma order: the list of `a,b` is the list of `a` followed by the list of `b` |
| `Profiles.ParseListSingle` | app/routers/ai_match.py:17-18 | text without a comma parses to its stripped form, or to nothing when blank |
| `Profiles.ParseListOfItems` | app/routers/ai_match.py:17-18 | text whose comma pieces are already items parses to exactly those pieces |
| `Profiles.ParseListRoundTrip` | app/routers/ai_match.py:17-18 | writing a list of items comma-separated and parsing it gives the same list |
| `Profiles.ParseListItemsStripped` | app/routers/ai_match.py:17-18 | stripping any parsed item changes nothing |
| `Profiles.ProfileToDict` | app/routers/ai_match.py:16-27 | `id`, `child_age` (as `age`) and `city` are copied; `strengths`/`needs` are parsed lists of items; absent `notes` becomes `""`; `connection_preference` is `"both"` |
| `Prefilter.AgeCorridor` | app/routers/ai_match.py:44-46 | `low <= age <= high`, the width is 6 up to age 12 and 8 from 13 on, and an age is inside exactly when it is at most 3 (or 4) years from the target's |
| `Prefilter.Qualifying` | app/routers/ai_match.py:48-55 | every row the filtered query returns is a table row passing all filters, and every table row passing them is returned |
| `Prefilter.QualifyingSubMultiset` | app/routers/ai_match.py:48-55 | the filtered query returns each qualifying table row exactly as often as the table holds it, and no other row |
| `Prefilter.Candidates` | app/routers/ai_match.py:48-56 | the capped query returns `min(max_candidates, number qualifying)` qualifying table rows, no row more often than the table holds it, none exactly when no row qualifies, and every qualifying row when they fit under the cap |
| `Prefilter.Lookup` | app/routers/ai_match.py:39 | the primary-key lookup returns a table row with that id, and returns nothing exactly when no row has it |
| `Prefilter.TargetNotCandidate` | app/routers/ai_match.py:50 | the target is never its own candidate |
| `Prefilter.CorridorBoundaries` | app/routers/ai_match.py:44-46 | at age 12 the corridor is 9..15 and at age 13 it is 9..17 |
| `Prefilter.WonderlandExample` | app/routers/ai_match.py:48-56 | from A (10, Wonderland) with B (12) and C (20) in the same city, only B is a candidate |
| `Normalize.TruthyStringsConcat` | app/routers/ai_match.py:100 | the fragments of `xs + ys` are those of `xs` followed by those of `ys` |
| `Normalize.RationaleSkipsFalsy` | app/routers/ai_match.py:100 | a falsy element contributes nothing to the joined rationale |
| `Normalize.RationaleExample` | app/routers/ai_match.py:100 | `["a","b","c"]` joins to `"a b c"` |
| `Normalize.RationaleWords` | app/routers/ai_match.py:100 | a rationale of non-empty, space-free strings, joined and split again on spaces, gives back exactly those strings |
| `Normalize.NormalizeResult` | app/routers/ai_match.py:99-100 | a list-valued `rationale` becomes the joined string; a non-list `rationale` and every other field are unchanged; afterwards `rationale` is never a list |
| `Normalize.NormalizeResultIdempotent` | app/routers/ai_match.py:99-100 | normalising a result twice is normalising it once |
| `Normalize.Take` | app/routers/ai_match.py:95 | `xs[:n]` is a prefix of `xs` of length `min(n, len(xs))` |
| `Normalize.NormalizeAll` | app/routers/ai_match.py:98-100 | the loop succeeds exactly when every result is an object, and then result k is result k normalised |
| `Normalize.NormalizedBody` | app/routers/ai_match.py:92-102 | `target_id` and `mode` are the request's; `results` is the first `min(top_k, len)` model results in order, each normalised; other keys are unchanged; it fails exactly when one of the kept results is not an object |
| `Normalize.NormalizeInPlace` | app/routers/ai_match.py:92-102 | the in-place updates and the rationale loop compute `NormalizedBody`, and report failure exactly when it does |
| `AiMatch.Match` | app/routers/ai_match.py:29-102 | the handler's outcome is `MatchOutcome`, and the model is asked `LlmRequest` (nothing when that is `None`) |
| `AiMatch.HandleReply` | app/routers/ai_match.py:76-102 | from the model's reply on, the handler's outcome is `Interpret` of that reply |
| `AiMatch.UnknownTarget` | app/routers/ai_match.py:39-41 | an unknown `target_id` gives 404 and no model call |
| `AiMatch.NoCandidates` | app/routers/ai_match.py:58-59 | with no qualifying profile the reply is `{target_id, mode, results: []}`, the model is not asked, and the outcome is the same for any model |
| `AiMatch.WhatTheModelIsAsked` | app/routers/ai_match.py:58-73 | the model is asked exactly when the target exists and some profile qualifies, and it is sent the target's payload, `min(max_candidates, number qualifying)` qualifying payloads, the request's mode and `top_k`, radius 50 and language "ru" |
| `AiMatch.ModelFailuresAre502` | app/routers/ai_match.py:76-90 | a failed call, unparseable JSON and a wrong shape each give their own 502 outcome and never a reply |
| `AiMatch.NonObjectResultIsUnhandled` | app/routers/ai_match.py:98-99 | a non-object among the first `top_k` results gives an unhandled 500 |
| `AiMatch.ReplyEnforcesRequest` | app/routers/ai_match.py:93-100 | every reply carries the request's `target_id` and `mode`, at most `top_k` object results, and no list-valued rationale |
| `AiMatch.ReplyKeepsModelOutput` | app/routers/ai_match.py:93-100 | a reply built from the model's output has its first `min(top_k, len)` results in order, each normalised, and every other key from the model |

## Left out

- The order of the rows that survive `LIMIT`: the query has no `ORDER BY`. The model takes a prefix of the filtered table, and no contract says which rows that prefix holds. The contracts promise only how many rows there are, that each is a qualifying table row, and that no row appears more often than in the table.
- The model client (`app/services/llm_client.py`): environment variables, the OpenAI request and JSON mode. It is the parameter `llm`, which may fail with an error text.
- The prompt text (`app/services/matching_prompt.py`): the fixed system prompt and the `json.dumps` template. The model keeps the arguments of `build_user_prompt` (`PromptInput`) instead of the rendered text.
- `json.loads` (the parameter `parse`) and Python's `str()` of non-string values (the parameter `show`).
- JSON values `Json.Json` cannot hold: `NaN`, `Infinity`, `-Infinity` and numbers too large for a float (such as `1e400`), which `json.loads` turns into `nan`/`inf`, and strings with lone surrogates such as `"\ud800"`. Some such values never reach the returned body: a `target_id` or `mode` value is overwritten (app/routers/ai_match.py:93-94), a result past `top_k` is dropped (:95), and `nan`/`inf` inside a list-valued `rationale` become text when `str()` renders them (:100). Those replies are 200s. A value that does reach the returned body makes rendering fail with a 500; this includes a lone surrogate that the join carries into the rationale string. The model can say only `Matched` (200) for such a reply.
- The dict key order of the reply. Objects are maps, so a key's position is not modelled; a key's value is.
- The error detail texts of the HTTP exceptions. Outcomes keep the underlying error text but not the message prefix.
- Query validation and defaults: the `mode` pattern and the bounds of `top_k` and `max_candidates` are the precondition `AiMatch.ValidRequest`. The defaults for omitted parameters (app/routers/ai_match.py:32-35) are not modelled: `mode="complementarity"`, `top_k=5`, `same_city=True` and `max_candidates=50`. `MatchRequest` always carries all four values.
- Profile CRUD, sessions and id assignment (`app/routers/profiles.py`, `app/models.py`, `app/schemas.py`, `app/database.py`, `app/main.py`). The table enters only as a sequence of rows.
- `Text.IsSpace` lists the code points of Python's `str.isspace`, but does not follow Unicode database changes across Python versions.
