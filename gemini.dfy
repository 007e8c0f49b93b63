/** The deterministic pre- and post-processing around the text-generation service: the
    templates returned without an API key or after a failed call, the topic list normalised to
    exactly `count` entries, the clean-up of a single headline, and the payload taken out of a
    data URL before it is attached to a request. The service call itself is a parameter: its
    outcome is passed in as a reply. */
module Gemini {
  import opened Wrappers
  import opened Domain
  import Seqs
  import opened Text

  datatype TopicSuggestion = TopicSuggestion(title: string, visualConcept: string)

  /** What the topic request came back with: the call threw, its text was not JSON, or its
      text parsed to a list of topics (a missing or empty text is parsed as `[]`). */
  datatype TopicsReply = CallFailed | Unparseable | Parsed(topics: seq<TopicSuggestion>)

  /** What a text request came back with: the call threw, or it answered with a text that may
      be missing. */
  datatype TextReply = Failed | Replied(text: Option<string>)

  /** `Array.from({length: count}, ...)`: a negative length makes an empty array. */
  function FallbackLength(count: int): nat
  {
    if count < 0 then 0 else count
  }

  function FallbackTopic(industry: string, i: nat): TopicSuggestion
  {
    TopicSuggestion("Post sobre " + industry + " " + NatToString(i + 1), "Foto de " + industry)
  }

  /** The list returned without an API key, after a failed call, and in place of a reply that
      is not JSON: `count` numbered topics about the client's industry. */
  function FallbackTopics(industry: string, count: int): (r: seq<TopicSuggestion>)
    ensures |r| == FallbackLength(count)
    ensures forall i | 0 <= i < |r| :: r[i] == FallbackTopic(industry, i)
  {
    seq(FallbackLength(count), i requires 0 <= i => FallbackTopic(industry, i))
  }

  /** The fallback titles are pairwise distinct: the number at the end tells them apart. */
  lemma FallbackTitlesDistinct(industry: string, count: int, i: nat, j: nat)
    requires i < j < FallbackLength(count)
    ensures FallbackTopics(industry, count)[i].title != FallbackTopics(industry, count)[j].title
  {
    var prefix := "Post sobre " + industry + " ";
    var a := NatToString(i + 1);
    var b := NatToString(j + 1);
    assert FallbackTopics(industry, count)[i].title == prefix + a;
    assert FallbackTopics(industry, count)[j].title == prefix + b;
    if prefix + a == prefix + b {
      assert a == (prefix + a)[|prefix|..];
      assert b == (prefix + b)[|prefix|..];
      NatToStringInjective(i + 1, j + 1);
    }
  }

  /** The entry that pads a short list. */
  function ExtraTopic(clientName: string): TopicSuggestion
  {
    TopicSuggestion("Ideia Extra para " + clientName, "Imagem lifestyle")
  }

  /** The end index of JavaScript's `slice(0, end)` on a list of length `len`: a negative end
      counts from the back. */
  function SliceEnd(len: nat, end: int): (r: nat)
    ensures r <= len
    ensures end >= 0 ==> r == if end < len then end else len
    ensures end < 0 ==> r == if len + end < 0 then 0 else len + end
  {
    if end < 0 then (if len + end < 0 then 0 else len + end)
    else if end < len then end else len
  }

  /** The list the topic generator hands back for `count` entries: the reply's topics first,
      then extras, cut at `count`. */
  function Normalised(topics: seq<TopicSuggestion>, count: nat, clientName: string): seq<TopicSuggestion>
  {
    seq(count, i requires 0 <= i < count => if i < |topics| then topics[i] else ExtraTopic(clientName))
  }

  /** Pads a short topic list with extras while it is shorter than `count`, then keeps its first
      `count` entries. For a negative `count` nothing is added and the slice drops that many
      entries from the back. */
  method PadTopics(topics: seq<TopicSuggestion>, count: int, clientName: string) returns (r: seq<TopicSuggestion>)
    ensures count >= 0 ==> r == Normalised(topics, count, clientName)
    ensures count < 0 ==> r == topics[..SliceEnd(|topics|, count)]
  {
    var ts := topics;
    while |ts| < count
      invariant |topics| <= |ts|
      invariant |ts| <= |topics| || |ts| <= count
      invariant ts[..|topics|] == topics
      invariant forall i | |topics| <= i < |ts| :: ts[i] == ExtraTopic(clientName)
      decreases count - |ts|
    {
      ts := ts + [ExtraTopic(clientName)];
    }
    r := ts[..SliceEnd(|ts|, count)];
    if count >= 0 {
      forall i | 0 <= i < count
        ensures r[i] == Normalised(topics, count, clientName)[i]
      {
        if i < |topics| {
          assert ts[..|topics|][i] == topics[i];
        }
      }
    }
  }

  /** The normalised list has exactly `count` entries. */
  lemma NormalisedLength(topics: seq<TopicSuggestion>, count: nat, clientName: string)
    ensures |Normalised(topics, count, clientName)| == count
  {
  }

  /** A reply with at least `count` topics is cut to its first `count`, in order. */
  lemma {:induction false} NormalisedTruncates(topics: seq<TopicSuggestion>, count: nat, clientName: string)
    requires count <= |topics|
    ensures Normalised(topics, count, clientName) == topics[..count]
  {
    var n := Normalised(topics, count, clientName);
    assert forall i | 0 <= i < count :: n[i] == topics[..count][i];
  }

  /** A short reply keeps all its topics at the front and is followed by extras only. */
  lemma {:induction false} NormalisedPads(topics: seq<TopicSuggestion>, count: nat, clientName: string)
    requires |topics| <= count
    ensures Normalised(topics, count, clientName)[..|topics|] == topics
    ensures forall i | |topics| <= i < count :: Normalised(topics, count, clientName)[i] == ExtraTopic(clientName)
  {
    var n := Normalised(topics, count, clientName);
    assert forall i | 0 <= i < |topics| :: n[..|topics|][i] == topics[i];
  }

  /** `generatePostTopics`: the fallback list without an API key, after a failed call, or when
      the reply is not JSON; otherwise the reply's topics normalised to `count` entries. */
  method GeneratePostTopics(hasApiKey: bool, client: Client, count: int, reply: TopicsReply)
    returns (r: seq<TopicSuggestion>)
    ensures !hasApiKey || !reply.Parsed? ==> r == FallbackTopics(client.industry, count)
    ensures hasApiKey && reply.Parsed? && count >= 0 ==> r == Normalised(reply.topics, count, client.name)
    ensures hasApiKey && reply.Parsed? && count < 0 ==> r == reply.topics[..SliceEnd(|reply.topics|, count)]
  {
    var fallback := FallbackTopics(client.industry, count);
    if !hasApiKey {
      return fallback;
    }
    match reply {
      case CallFailed =>
        r := fallback;
      case Unparseable =>
        r := PadTopics(fallback, count, client.name);
        if count >= 0 {
          NormalisedTruncates(fallback, count, client.name);
        }
      case Parsed(topics) =>
        r := PadTopics(topics, count, client.name);
    }
  }

  /** The topic list has exactly `count` entries whatever the reply, for a non-negative count. */
  lemma TopicCount(hasApiKey: bool, client: Client, count: nat, reply: TopicsReply)
    ensures |FallbackTopics(client.industry, count)| == count
    ensures reply.Parsed? ==> |Normalised(reply.topics, count, client.name)| == count
  {
  }

  predicate IsQuote(c: char) {
    c == '\'' || c == '"'
  }

  /** `text.replace(/['"]/g, '')`: the text with every quote removed. */
  function Unquoted(text: string): (r: string)
    ensures forall c | c in r :: !IsQuote(c)
    ensures forall c | c in text && !IsQuote(c) :: c in r
  {
    Seqs.Filter(text, c => !IsQuote(c))
  }

  /** `text.replace(/['"]/g, '').trim()`: the unquoted text with white space cut from its ends
      only; what is left is one contiguous piece of the unquoted text, in its order, interior
      white space included. */
  function CleanHeadline(text: string): (r: string)
    ensures forall c | c in r :: !IsQuote(c)
    ensures IsTrimmed(r)
    ensures forall c | c in text && !IsQuote(c) && !IsSpace(c) :: c in r
    ensures var u := Unquoted(text); FramedBySpace(u, |u| - |TrimStart(u)|, r)
  {
    TrimmedUnquoted(text);
    TrimSlice(Unquoted(text));
    Trim(Unquoted(text))
  }

  /** Trimming the unquoted text keeps every character that is neither a quote nor white space,
      and brings back no quote. */
  lemma TrimmedUnquoted(text: string)
    ensures forall c | c in Trim(Unquoted(text)) :: !IsQuote(c)
    ensures forall c | c in text && !IsQuote(c) && !IsSpace(c) :: c in Trim(Unquoted(text))
  {
    TrimKeepsNonSpace(Unquoted(text));
  }

  /** Cleaning a cleaned headline changes nothing. */
  lemma CleanHeadlineIdempotent(text: string)
    ensures CleanHeadline(CleanHeadline(text)) == CleanHeadline(text)
  {
    var h := CleanHeadline(text);
    Seqs.FilterKeepsAll(h, c => !IsQuote(c));
    assert Unquoted(h) == h;
    TrimTrimmed(h);
  }

  /** `generateSingleTopic`: without an API key, or when the cleaned reply is missing or empty,
      a headline about the industry; after a failed call a fixed headline; otherwise the cleaned
      reply. The result is never empty. */
  function GenerateSingleTopic(hasApiKey: bool, industry: string, reply: TextReply): (r: string)
    ensures r != ""
    ensures !hasApiKey ==> r == "Ideia sobre " + industry
    ensures hasApiKey && reply.Failed? ==> r == "Ideia Criativa"
    ensures hasApiKey && reply.Replied? && reply.text.Some? && CleanHeadline(reply.text.value) != "" ==>
              r == CleanHeadline(reply.text.value)
    ensures hasApiKey && reply.Replied? && (reply.text.None? || CleanHeadline(reply.text.value) == "") ==>
              r == "Ideia sobre " + industry
  {
    if !hasApiKey then "Ideia sobre " + industry
    else match reply {
      case Failed => "Ideia Criativa"
      case Replied(text) =>
        var cleaned := if text.Some? then CleanHeadline(text.value) else "";
        if cleaned != "" then cleaned else "Ideia sobre " + industry
    }
  }

  /** A headline that came from the service is already clean: it has no quotes and no
      surrounding whitespace. */
  lemma GeneratedHeadlineIsClean(industry: string, text: string)
    requires CleanHeadline(text) != ""
    ensures forall c | c in GenerateSingleTopic(true, industry, Replied(Some(text))) :: !IsQuote(c)
    ensures IsTrimmed(GenerateSingleTopic(true, industry, Replied(Some(text))))
  {
  }

  /** `s.split(',')[1] || s`: the part after the first comma, up to the next one, when there is
      such a part and it is not empty; the whole string otherwise. */
  function Payload(s: string): (r: string)
    ensures r == "" ==> s == ""
    ensures r == s || ',' !in r
  {
    match SplitPart(s, ',', 1)
    case Some(part) => if part != "" then part else s
    case None => s
  }

  /** Raw base64 without a header is sent as it is. */
  lemma PayloadWithoutComma(s: string)
    requires ',' !in s
    ensures Payload(s) == s
  {
    SplitWhole(s, ',');
  }

  /** For a data URL `header,body,...` the header is dropped and the segment after the first
      comma is sent, up to the next comma if there is one. */
  lemma {:induction false} PayloadIsSecondSegment(header: string, body: string, rest: string)
    requires ',' !in header && ',' !in body && body != ""
    requires rest == "" || rest[0] == ','
    ensures Payload(header + "," + body + rest) == body
  {
    assert header + "," + body + rest == header + [','] + (body + rest);
    SplitAfterPiece(header, ',', body + rest);
    if rest == "" {
      assert body + rest == body;
      SplitWhole(body, ',');
    } else {
      assert body + rest == body + [','] + rest[1..];
      SplitAfterPiece(body, ',', rest[1..]);
    }
  }

  /** For a data URL `header,body` the header is dropped. */
  lemma PayloadOfDataUrl(header: string, body: string)
    requires ',' !in header && ',' !in body && body != ""
    ensures Payload(header + "," + body) == body
  {
    SplitAfterPiece(header, ',', body);
    SplitWhole(body, ',');
    assert header + "," + body == header + [','] + body;
  }

  /** A data URL with an empty body is sent whole. */
  lemma PayloadOfEmptyBody(header: string)
    requires ',' !in header
    ensures Payload(header + ",") == header + ","
  {
    SplitAfterPiece(header, ',', "");
    SplitWhole("", ',');
    assert header + "," == header + [','] + "";
  }

  /** The caption returned without an API key; its hashtag is the industry without whitespace. */
  function DemoCaption(topic: string, industry: string): (r: string)
    ensures var tag := RemoveSpaces(industry);
            |r| > |tag| && r[|r| - |tag| - 1] == '#' && r[|r| - |tag|..] == tag
    ensures forall c | c in r[|r| - |RemoveSpaces(industry)|..] :: !IsSpace(c)
  {
    var head := "(Demo) " + topic + " é incrível! \U{1F680} Transforme seus resultados hoje mesmo. #";
    var r := head + RemoveSpaces(industry);
    assert r[|r| - |RemoveSpaces(industry)|..] == RemoveSpaces(industry);
    r
  }

  /** The caption returned when the call throws. */
  function FailedCaption(topic: string, industry: string): string
  {
    "\U{1F680} " + topic + "\n\nUma novidade incrível chegando para você! Fique ligado.\n\n#" + industry + " #Novidade"
  }

  /** The brandbook sent with a caption request: its payload when the client has one, nothing
      otherwise. */
  function BrandbookAttachment(client: Client): (r: Option<string>)
    ensures r.Some? <==> client.brandbook != ""
    ensures r.Some? ==> r.value != "" && r.value == Payload(client.brandbook)
  {
    if client.brandbook != "" then Some(Payload(client.brandbook)) else None
  }

  /** `generateCaption`: the demo caption without an API key, the failure template when the call
      throws, the reply's text when it is not empty and a fixed apology otherwise. A caption is
      never empty. */
  function GenerateCaption(hasApiKey: bool, topic: string, client: Client, reply: TextReply): (r: string)
    ensures r != ""
    ensures !hasApiKey ==> r == DemoCaption(topic, client.industry)
    ensures hasApiKey && reply.Failed? ==> r == FailedCaption(topic, client.industry)
    ensures hasApiKey && reply.Replied? && reply.text.Some? && reply.text.value != "" ==> r == reply.text.value
    ensures hasApiKey && reply.Replied? && (reply.text.None? || reply.text.value == "") ==>
              r == "Não foi possível gerar a legenda."
  {
    if !hasApiKey then DemoCaption(topic, client.industry)
    else match reply {
      case Failed => FailedCaption(topic, client.industry)
      case Replied(text) =>
        if text.Some? && text.value != "" then text.value else "Não foi possível gerar a legenda."
    }
  }

  /** `generateCaptionFromImage`: a fixed caption without an API key, a template around the
      context when the call throws, the reply's text when it is not empty and a fixed apology
      otherwise. */
  function GenerateCaptionFromImage(hasApiKey: bool, context: string, reply: TextReply): (r: string)
    ensures r != ""
    ensures !hasApiKey ==> r == "Legenda simulada baseada na imagem. #FotoIncrivel"
    ensures hasApiKey && reply.Failed? ==>
              r == "Uma imagem vale mais que mil palavras! \U{1F4F8}\n\n" + context + "\n\n#InstaGood"
    ensures hasApiKey && reply.Replied? && reply.text.Some? && reply.text.value != "" ==> r == reply.text.value
    ensures hasApiKey && reply.Replied? && (reply.text.None? || reply.text.value == "") ==>
              r == "Não consegui analisar a imagem."
  {
    if !hasApiKey then "Legenda simulada baseada na imagem. #FotoIncrivel"
    else match reply {
      case Failed => "Uma imagem vale mais que mil palavras! \U{1F4F8}\n\n" + context + "\n\n#InstaGood"
      case Replied(text) =>
        if text.Some? && text.value != "" then text.value else "Não consegui analisar a imagem."
    }
  }
}
