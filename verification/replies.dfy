/**
 * What comes back from a chat-completion call, and how the free-text JSON
 * replies of the scope and legality judges are read: markdown fences are cut
 * off and the rest is decoded as a JSON object.
 */
module OracleReplies {
  import opened PyText
  import opened JsonValues

  /** The outcome of one `client.chat.completions.create` call: the message text, or the exception's text. */
  datatype Reply = Answer(content: string) | CallFailed(detail: string)

  /** The outcome of `json.loads`: a value, or the text of the `JSONDecodeError`. */
  datatype Parsed = Decoded(value: Json) | Malformed(detail: string)

  /** A reply read as a JSON object, or the reason string the judges report when it cannot be. */
  datatype JsonReply = ObjectReply(members: seq<(string, Json)>) | Unreadable(reason: string)

  const JsonFence := "```json"
  const Fence := "```"
  const ParseFailedPrefix := "LLM response parse failed: "

  /**
   * The cleaning both judges apply to a reply: trim, drop one leading
   * "```json", drop one trailing "```", trim again.
   */
  function StripFences(content: string): (raw: string)
    ensures |raw| <= |content| && Trimmed(raw)
  {
    Strip(DropClosing(DropOpening(Strip(content))))
  }

  /** One leading "```json" removed, if there is one. */
  function DropOpening(raw: string): string {
    if StartsWith(raw, JsonFence) then raw[7..] else raw
  }

  /** One trailing "```" removed, if there is one. */
  function DropClosing(raw: string): string {
    if EndsWith(raw, Fence) then raw[..|raw| - 3] else raw
  }

  /** A reply with neither marker comes back merely trimmed. */
  lemma FencesAbsent(content: string)
    requires !StartsWith(Strip(content), JsonFence) && !EndsWith(Strip(content), Fence)
    ensures StripFences(content) == Strip(content)
  {
    StripTrimmed(Strip(content));
  }

  /** A fenced JSON block, padded with whitespace, comes back as its trimmed body. */
  lemma FenceRoundTrip(w1: string, body: string, w2: string)
    requires AllSpace(w1) && AllSpace(w2)
    ensures StripFences(w1 + JsonFence + body + Fence + w2) == Strip(body)
  {
    var fenced := JsonFence + (body + Fence);
    assert w1 + JsonFence + body + Fence + w2 == w1 + fenced + w2;
    assert fenced[0] == '`' && fenced[|fenced| - 1] == '`';
    StripPadded(w1, fenced, w2);
    Affixes(JsonFence, body + Fence);
    assert fenced[7..] == body + Fence;
    Affixes(body, Fence);
    assert (body + Fence)[..|body + Fence| - 3] == body;
  }

  /**
   * The trimmed reply splits into an optional leading "```json", a middle
   * and an optional trailing "```": the opening marker is taken exactly when
   * the trimmed reply starts with it, the closing one exactly when what
   * remains ends with it, and the cleaned reply is the trimmed middle. A
   * reply with only one marker loses only that one.
   */
  lemma FenceShape(content: string) returns (pre: string, mid: string, post: string)
    ensures Strip(content) == pre + mid + post
    ensures (pre == [] || pre == JsonFence) && (pre == JsonFence <==> StartsWith(Strip(content), JsonFence))
    ensures (post == [] || post == Fence) && (post == Fence <==> EndsWith(Strip(content)[|pre|..], Fence))
    ensures StripFences(content) == Strip(mid)
  {
    var t := Strip(content);
    pre, mid, post := SplitMarkers(t);
    var raw1 := if StartsWith(t, JsonFence) then t[7..] else t;
    var raw2 := if EndsWith(raw1, Fence) then raw1[..|raw1| - 3] else raw1;
    assert mid == raw2;
    assert StripFences(content) == Strip(raw2);
  }

  /** The marker split of an already-trimmed reply, as the cleaning performs it. */
  lemma SplitMarkers(t: string) returns (pre: string, mid: string, post: string)
    ensures t == pre + mid + post
    ensures (pre == [] || pre == JsonFence) && (pre == JsonFence <==> StartsWith(t, JsonFence))
    ensures (post == [] || post == Fence) && (post == Fence <==> EndsWith(t[|pre|..], Fence))
    ensures var raw1 := if StartsWith(t, JsonFence) then t[7..] else t;
      mid == if EndsWith(raw1, Fence) then raw1[..|raw1| - 3] else raw1
  {
    var u;
    if StartsWith(t, JsonFence) {
      pre, u := JsonFence, t[7..];
      assert t == t[..7] + t[7..];
    } else {
      pre, u := [], t;
    }
    assert t == pre + u;
    if EndsWith(u, Fence) {
      mid, post := u[..|u| - 3], Fence;
      assert u == u[..|u| - 3] + u[|u| - 3..];
    } else {
      mid, post := u, [];
    }
    assert u == mid + post;
    assert t == pre + mid + post;
  }

  /** A fence without the "json" tag keeps its opening marker, so the cleaned reply is not the JSON body. */
  lemma UntaggedFenceKept()
    ensures StripFences("```\n{}\n```") == "```\n{}"
  {
    var t := "```\n{}\n```";
    assert Strip(t) == t by { StripTrimmed(t); }
    assert !StartsWith(t, JsonFence) by { assert t[3] != JsonFence[3]; }
    var u := "```\n{}";
    assert |t| == 10 && |u| == 6;
    assert EndsWith(t, Fence) by {
      assert forall k :: 0 <= k < 3 ==> t[7 + k] == Fence[k];
    }
    assert t[..|t| - 3] == u + "\n" by {
      assert forall k :: 0 <= k < 7 ==> t[k] == (u + "\n")[k];
    }
    assert u + "\n" == "" + u + "\n";
    StripPadded("", u, "\n");
  }

  /** The reason a judge reports when its reply cannot be read as a dict. */
  function ParseFailure(detail: string, raw: string): (reason: string)
    ensures StartsWith(reason, ParseFailedPrefix) && EndsWith(reason, " - RAW: " + raw)
  {
    Affixes(ParseFailedPrefix, detail + " - RAW: " + raw);
    Affixes(ParseFailedPrefix + detail, " - RAW: " + raw);
    assert ParseFailedPrefix + detail + " - RAW: " + raw == ParseFailedPrefix + (detail + " - RAW: " + raw);
    ParseFailedPrefix + detail + " - RAW: " + raw
  }

  /**
   * `json.loads(raw)` followed by the first `.get`: a dict is read, anything
   * else becomes the parse-failure reason, which quotes the raw text.
   */
  function DecodeObject(raw: string, parse: string -> Parsed): (r: JsonReply)
    ensures r.Unreadable? <==> !(parse(raw).Decoded? && parse(raw).value.JObj?)
    ensures r.ObjectReply? ==> parse(raw) == Decoded(JObj(r.members))
    ensures r.Unreadable? ==> StartsWith(r.reason, ParseFailedPrefix) && EndsWith(r.reason, " - RAW: " + raw)
  {
    match parse(raw)
    case Malformed(detail) => Unreadable(ParseFailure(detail, raw))
    case Decoded(JObj(members)) => ObjectReply(members)
    case Decoded(v) => Unreadable(ParseFailure(NoGetMessage(v), raw))
  }
}
