/** The context-assembly step: join the texts with newlines, tokenize, and keep at most
    `maxTokens` tokens, reporting the length of the token sequence actually used. */
module Context {
  import opened Text

  /** A token id of the tokenizer. */
  type Token = nat

  /** The tokenizer picked for the model name, seen only through its two operations. Nothing is
      assumed about how they relate: decoding an encoding need not give the text back. */
  datatype Codec = Codec(encode: string -> seq<Token>, decode: seq<Token> -> string)

  /** What the step returns: the context text and the token count it reports. */
  datatype ContextResult = ContextResult(text: string, tokenCount: nat)

  /** The default budget of the search endpoint. */
  const DefaultMaxTokens: int := 8000

  function Min(a: int, b: int): int { if a <= b then a else b }

  function Max(a: int, b: int): int { if a >= b then a else b }

  /** Python's `tokens[:n]`: a non-negative `n` keeps up to `n` tokens from the front, a negative
      `n` drops `-n` tokens from the back. */
  function SlicePrefix(tokens: seq<Token>, n: int): (r: seq<Token>)
    ensures r <= tokens
    ensures |r| == if n >= 0 then Min(n, |tokens|) else Max(0, |tokens| + n)
  {
    var stop := if n >= 0 then n else |tokens| + n;
    if stop <= 0 then [] else if stop >= |tokens| then tokens else tokens[..stop]
  }

  /** The newline-joined texts, which are then tokenized. */
  function Combined(texts: seq<string>): string
  {
    Join("\n", texts)
  }

  /** `prepare_context_for_llm(texts, model, max_tokens)` with the tokenizer of `model`. */
  function PrepareContext(codec: Codec, texts: seq<string>, maxTokens: int): (r: ContextResult)
    // The count is the smaller of the full token length and the budget, so within the budget.
    ensures maxTokens >= 0 ==>
      r.tokenCount == Min(|codec.encode(Combined(texts))|, maxTokens) && r.tokenCount <= maxTokens
    // Within budget: the joined text itself, unchanged, with its full token count.
    ensures |codec.encode(Combined(texts))| <= maxTokens ==>
      r.text == Combined(texts) && r.tokenCount == |codec.encode(Combined(texts))|
    // Over budget: exactly maxTokens tokens, and the text is the decoding of the first ones.
    ensures 0 <= maxTokens < |codec.encode(Combined(texts))| ==>
      r.tokenCount == maxTokens && r.text == codec.decode(codec.encode(Combined(texts))[..maxTokens])
    // A negative budget drops that many tokens from the end, as Python slicing does.
    ensures maxTokens < 0 ==>
      r.tokenCount == Max(0, |codec.encode(Combined(texts))| + maxTokens)
  {
    var combined := Combined(texts);
    var tokens := codec.encode(combined);
    if |tokens| > maxTokens then
      var kept := SlicePrefix(tokens, maxTokens);
      ContextResult(codec.decode(kept), |kept|)
    else
      ContextResult(combined, |tokens|)
  }

  /** For every budget, negative ones included, the reported count is the length of the token
      sequence the text comes from: a prefix of the encoding of the joined text, and when it is
      shorter than the encoding the text is that prefix decoded. The count is taken after
      trimming, never before. (With a negative budget and an empty encoding the text is the
      decoding of no tokens, hence the disjunction in the last clause.) */
  lemma CountIsOfTokensUsed(codec: Codec, texts: seq<string>, maxTokens: int)
    ensures var tokens := codec.encode(Combined(texts));
      var r := PrepareContext(codec, texts, maxTokens);
      r.tokenCount <= |tokens| &&
      (r.tokenCount < |tokens| ==> r.text == codec.decode(tokens[..r.tokenCount])) &&
      (r.text == Combined(texts) || r.text == codec.decode(tokens[..r.tokenCount]))
  {
  }

  /** When the tokenizer gives back the very tokens it decoded for the prefix that was used,
      the reported count is the token length of the returned text. */
  lemma CountMatchesTextWhenPrefixRoundTrips(codec: Codec, texts: seq<string>, maxTokens: int)
    requires maxTokens >= 0
    requires var tokens := codec.encode(Combined(texts));
      |tokens| > maxTokens ==> codec.encode(codec.decode(tokens[..maxTokens])) == tokens[..maxTokens]
    ensures var r := PrepareContext(codec, texts, maxTokens);
      |codec.encode(r.text)| == r.tokenCount
  {
  }

  /** The exact condition: over budget, the reported count is the token length of the returned
      text if and only if the decoded prefix re-encodes to exactly `maxTokens` tokens (not
      necessarily the same ones). Within budget the two always agree. */
  lemma CountMatchesTextExactly(codec: Codec, texts: seq<string>, maxTokens: int)
    requires maxTokens >= 0
    ensures var tokens := codec.encode(Combined(texts));
      var r := PrepareContext(codec, texts, maxTokens);
      (|tokens| <= maxTokens ==> |codec.encode(r.text)| == r.tokenCount) &&
      (|tokens| > maxTokens ==>
        (|codec.encode(r.text)| == r.tokenCount <==>
         |codec.encode(codec.decode(tokens[..maxTokens]))| == maxTokens))
  {
  }

  /** Without such a condition the reported count need not be the token length of the returned
      text: a tokenizer whose decoded single token re-encodes as two tokens. */
  lemma CountMayDifferFromReencoding()
    ensures exists codec: Codec, texts: seq<string> ::
      |codec.encode(PrepareContext(codec, texts, 1).text)| != PrepareContext(codec, texts, 1).tokenCount
  {
    // One token per character; any token sequence decodes as "ab".
    var codec := Codec(s => seq(|s|, k => 0), ts => "ab");
    var texts := ["xyz"];
    assert Combined(texts) == "xyz";
    assert |codec.encode("xyz")| == 3;
    var r := PrepareContext(codec, texts, 1);
    assert r.text == "ab" && r.tokenCount == 1;
    assert |codec.encode(r.text)| == 2;
  }

  /** No texts give the empty context with no tokens, given that the empty string encodes to no
      tokens (as it does for the tokenizers the source uses). */
  lemma EmptyTexts(codec: Codec, maxTokens: int)
    requires codec.encode("") == []
    requires maxTokens >= 0
    ensures PrepareContext(codec, [], maxTokens) == ContextResult("", 0)
  {
  }

  /** One text is used as it is: the join adds no separator. */
  lemma SingleText(codec: Codec, text: string, maxTokens: int)
    requires |codec.encode(text)| <= maxTokens
    ensures PrepareContext(codec, [text], maxTokens) == ContextResult(text, |codec.encode(text)|)
  {
  }

  /** A larger budget never reports fewer tokens. */
  lemma CountMonotoneInBudget(codec: Codec, texts: seq<string>, m: int, n: int)
    requires 0 <= m <= n
    ensures PrepareContext(codec, texts, m).tokenCount <= PrepareContext(codec, texts, n).tokenCount
  {
  }
}
