# Context assembly for the client search service

A Dafny model of the context-assembly step of a small FastAPI service in front of a Qdrant
collection. The step has two parts:

- `prepare_context_for_llm` joins a list of texts with newlines, tokenizes the result with the
  tokenizer of a model, keeps at most `max_tokens` tokens (decoding the kept prefix back to text
  when it had to cut), and returns the text with the length of the token sequence it used.
- the client search turns every retrieved point into one text, made of the point's scalar
  payload values (`str`, `int` including `bool`, `float`) rendered as strings and joined with
  single spaces, and hands those texts to the step above with the default budget of 8000 tokens.

The files:

- `text.dfy` (module `Text`): Python's `sep.join`, and `split` on one character as its inverse.
- `context.dfy` (module `Context`): the tokenizer as a pair of functions (`Codec`), Python's
  prefix slice, and `PrepareContext` with its properties.
- `payload.dfy` (module `Payload`): payload values, points, the `hasattr`/`get` lookup of a
  payload, the filter-and-render generator and the space join.
- `search.dfy` (module `Search`): the loop that collects one text per point, and the step that
  feeds those texts to `PrepareContext`.

The tokenizer and Python's `str` of numbers are not defined here. They are parameters: a
`Codec` value with `encode` and `decode`, and a `Renderer` value for integers and floats. Every
property is proved for all of them. Nothing is assumed about `decode(encode(s))`.

Points worth stating about what the code does, and does not, do:

- It does not sort, paginate or pick one field per record from a preference list. It joins all
  scalar values of every payload, and a point without scalar values contributes an empty text
  rather than being skipped.
- One might expect the reported count to be the token length of the returned text. The code
  reports the length of the token prefix it used, without re-encoding the decoded text. Over
  budget the two agree exactly when the decoded prefix re-encodes to `max_tokens` tokens
  (`CountMatchesTextExactly`); re-encoding to the very same tokens is one sufficient condition
  (`CountMatchesTextWhenPrefixRoundTrips`). `CountMayDifferFromReencoding` gives a tokenizer
  for which they differ.
- With no texts the result is the empty context with count 0, provided the tokenizer encodes
  the empty string to no tokens (`EmptyTexts`).
- The budget's range is not checked. A negative `max_tokens` goes through Python's slice and
  drops tokens from the end. The model keeps that behaviour (`SlicePrefix`), and the budget
  properties are stated for `max_tokens >= 0`.

## Model

| member | source | states |
|---|---|---|
| `Text.Join` | main.py:8 | `sep.join(parts)`; its length is the parts' summed length plus one separator between each two neighbours; specified further by `JoinConcat`, `JoinAppend`, `SplitJoin` and `JoinSplit` |
| `Context.Combined` | main.py:8 | `"\n".join(texts)`, the text that is tokenized; specified by the `Text` lemmas and `PrepareContext` |
| `Payload.IsScalar` | main.py:105 | the `isinstance(v, (str, int, float))` test, with bool passing as an int; lists, mappings and `None` fail it |
| `Payload.Render` | main.py:105 | `str(v)` of a kept value: a string is itself, a bool is `True`/`False`, numbers go through the abstract renderer |
| `Payload.Renderings` | main.py:105 | the generator of `str(v)` over the kept values: one rendering per scalar value; specified by `RenderingsConcat`, `RenderingsKeepOnlyScalars` and `RenderingsOfScalars` |
| `Payload.EntriesText` | main.py:105 | `" ".join` of the generator over `payload.values()`; specified by `NoScalarsNoText`, `EntriesTextAppend` and `WordsRecovered` |
| `Text.JoinConcat` | main.py:8 | joining two non-empty runs of texts is their joins with exactly one separator between them |
| `Text.JoinAppend` | main.py:8 | appending a text to a non-empty list adds one separator and that text at the end, so texts stay in order with no trailing separator |
| `Text.SplitJoin` | main.py:8 | splitting the newline join of a non-empty list of newline-free texts gives the list back: one separator between neighbours, order kept |
| `Text.JoinSplit` | main.py:8 | every string is the join of its own split pieces (the other direction of the inverse) |
| `Context.SlicePrefix` | main.py:12 | `tokens[:n]` is a prefix of the tokens; its length is `min(n, len)` for `n >= 0` and `max(0, len + n)` for negative `n` |
| `Context.PrepareContext` | main.py:2-14 | for `max_tokens >= 0` the count is `min(len(encode(join)), max_tokens)`, never above the budget; within budget the text is the newline join unchanged with its full token length; over budget the count is exactly `max_tokens` and the text is the decoding of the first `max_tokens` tokens; a negative budget counts `max(0, len + max_tokens)` tokens |
| `Context.CountIsOfTokensUsed` | main.py:9-14 | for every budget, the count is the length of a prefix of the encoding, and whenever that prefix is shorter than the encoding the text is its decoding: the count is taken after trimming |
| `Context.CountMatchesTextWhenPrefixRoundTrips` | main.py:9-14 | a sufficient condition: if the tokenizer re-encodes the decoded prefix to the same tokens, the count is the token length of the returned text |
| `Context.CountMatchesTextExactly` | main.py:9-14 | within budget the count is always the token length of the returned text; over budget it is exactly when the decoded prefix re-encodes to `max_tokens` tokens |
| `Context.CountMayDifferFromReencoding` | main.py:12-14 | some tokenizer and texts give a returned text whose own token length differs from the reported count |
| `Context.EmptyTexts` | main.py:8-14 | no texts give `("", 0)` for any non-negative budget when the empty string encodes to no tokens |
| `Context.SingleText` | main.py:8-14 | one text within budget is returned as it is, with its token length: the join adds nothing |
| `Context.CountMonotoneInBudget` | main.py:10-14 | a larger non-negative budget never reports fewer tokens |
| `Payload.Values` | main.py:105 | `payload.values()` has one value per entry, in the mapping's order |
| `Payload.Scalars` | main.py:105 | the values kept by the `isinstance(v, (str, int, float))` test: all of them scalar, a value is kept exactly when it occurs and is scalar, and at most as many as the input |
| `Payload.ScalarsConcat` | main.py:105 | the filter distributes over concatenation, so kept values keep their order and their multiplicity |
| `Payload.ScalarsOfScalars` | main.py:105 | a run of scalar values is kept whole, duplicates included |
| `Payload.Mapping` | main.py:103 | the payload lookup: a point without a `payload` key has the empty mapping, a present mapping is used as it is, a `None` payload is no mapping (specified through `PointText` and `MissingIsEmptyMapping`) |
| `Payload.MissingIsEmptyMapping` | main.py:103 | a point without a payload gives the same text as one whose payload is the empty mapping, as `point.get('payload', {})` does |
| `Payload.PointText` | main.py:103-105 | a point has a text exactly when its payload is not `None`, and a point without a payload has the empty text |
| `Payload.RenderingsConcat` | main.py:105 | the rendered values of two runs of values are those of the first run followed by those of the second |
| `Payload.RenderingsKeepOnlyScalars` | main.py:105 | only scalar values contribute: the renderings equal those of the scalar values alone |
| `Payload.RenderingsOfScalars` | main.py:105 | every scalar value contributes exactly one rendering, `str(v)`, in the values' order |
| `Payload.NoScalarsNoText` | main.py:105 | a payload with no scalar values gives the empty text |
| `Payload.EntriesTextAppend` | main.py:105 | a new last entry leaves the text unchanged when not scalar, and otherwise adds its rendering after a single space (or alone when nothing was kept before) |
| `Payload.WordsRecovered` | main.py:105 | for a payload of space-free strings, splitting its text on spaces gives the values back in order |
| `Search.CollectPayloadTexts` | main.py:101-106 | it succeeds exactly when no payload is `None`; then it holds one text per point, in point order, each the point's own text; otherwise it reports the first point whose payload is `None` |
| `Search.SearchContext` | main.py:100-107 | it succeeds exactly when no payload is `None`, and then its result is the context step on the points' texts with the default budget of 8000, so the count is at most 8000 |
| `Search.OneLinePerPoint` | main.py:101-107 | with newline-free texts, the joined context splits back into exactly one line per point |
| `Search.EmptyPayloadKeepsItsPlace` | main.py:101-106 | a point whose payload has no scalar values is not skipped: its text is the empty string at its own position |

## Left out

- The HTTP endpoints, their routing and the shape of their responses: service glue.
- The Qdrant client, its construction from the environment, the `scroll` call with its filter
  and limit of 10, and the index creation: network I/O. The points are an input of `SearchContext`.
- Loading `.env` and reading the environment: configuration I/O.
- The tokenizer itself and its lookup by model name (`tiktoken.encoding_for_model`, which fails
  for an unknown name): a foreign library. The codec for the model is an input.
- Python's `str` of integers and floats: runtime formatting, modelled as the abstract
  `Renderer`. `str` of a bool (`True`/`False`) and of a string is modelled exactly.
- The conversion of a raised exception into an `{"error": ...}` response: the model returns a
  `Failure` for the one exception that comes from the points (a `None` payload) and does not
  model the message text or exceptions from the network or the tokenizer.
- The two shapes of a point (an object with a `payload` attribute or a mapping with a `payload`
  key): collapsed into one `Point` whose payload is missing, `None` or a mapping.
- Floats are carried as 64-bit patterns and never interpreted; nested lists and mappings are
  carried but never rendered, as the code drops them.
