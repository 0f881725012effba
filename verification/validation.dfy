/**
 * The two judgement calls that decide whether an invoice may be used for an
 * operating-cost statement: first the scope check (whole building or a single
 * apartment), then, only for whole-building invoices, the legality check.
 * Neither raises: a failed call or an unreadable reply becomes a negative
 * answer that carries the failure text.
 */
module InvoiceValidation {
  import opened PyText
  import opened JsonValues
  import opened OracleReplies

  /** The dict `check_apartment_vs_building` returns; each entry is whatever the reply held. */
  datatype ScopeCheck = ScopeCheck(isWholeBuilding: Json, confidence: Json, indicatorsFound: Json, reason: Json)

  /** The dict `validate_invoice_via_llm` returns. */
  datatype Validation = Validation(validated: Json, reason: Json, buildingCheck: ScopeCheck)

  const ApiFailedPrefix := "API call failed: "
  const NoReason := "No reason provided."
  const SingleApartmentPrefix := "Rechnung ist für eine einzelne Wohnung/Apartment, nicht für das gesamte Gebäude. "

  /** The low-confidence, not-whole-building answer given when the judge cannot be heard. */
  function Negative(reason: string): (check: ScopeCheck)
    ensures !Truthy(check.isWholeBuilding)
  {
    ScopeCheck(JBool(false), JStr("low"), JArr([]), JStr(reason))
  }

  /** The scope answer read from a decoded reply, each missing key taking its default. */
  function ScopeFromObject(members: seq<(string, Json)>): ScopeCheck {
    ScopeCheck(
      Get(members, "is_whole_building", JBool(false)),
      Get(members, "confidence", JStr("low")),
      Get(members, "indicators_found", JArr([])),
      Get(members, "reason", JStr(NoReason)))
  }

  /** The result of `check_apartment_vs_building(text)` when the scope judge replies `judgeScope(text)`. */
  function ScopeCheckOf(text: string, judgeScope: string -> Reply, parse: string -> Parsed): ScopeCheck {
    match judgeScope(text)
    case CallFailed(detail) => Negative(ApiFailedPrefix + detail)
    case Answer(content) =>
      match DecodeObject(StripFences(content), parse)
      case Unreadable(reason) => Negative(reason)
      case ObjectReply(members) => ScopeFromObject(members)
  }

  /** A failed call or an unreadable reply is never taken for a whole-building invoice. */
  lemma ScopeCheckDegrades(text: string, judgeScope: string -> Reply, parse: string -> Parsed)
    requires judgeScope(text).CallFailed? || DecodeObject(StripFences(judgeScope(text).content), parse).Unreadable?
    ensures var check := ScopeCheckOf(text, judgeScope, parse);
      && check.isWholeBuilding == JBool(false) && check.confidence == JStr("low")
      && check.indicatorsFound == JArr([]) && check.reason.JStr?
      && (judgeScope(text).CallFailed? ==> check.reason.s == ApiFailedPrefix + judgeScope(text).detail)
      && (judgeScope(text).Answer? ==> StartsWith(check.reason.s, ParseFailedPrefix))
  {
  }

  /** A readable reply gives each key's value (its last occurrence), and its default when the key is missing. */
  lemma ScopeCheckDefaults(text: string, judgeScope: string -> Reply, parse: string -> Parsed)
    requires judgeScope(text).Answer?
    requires DecodeObject(StripFences(judgeScope(text).content), parse).ObjectReply?
    ensures var m := DecodeObject(StripFences(judgeScope(text).content), parse).members;
      var check := ScopeCheckOf(text, judgeScope, parse);
      && (!HasKey(m, "is_whole_building") ==> check.isWholeBuilding == JBool(false))
      && (!HasKey(m, "confidence") ==> check.confidence == JStr("low"))
      && (!HasKey(m, "indicators_found") ==> check.indicatorsFound == JArr([]))
      && (!HasKey(m, "reason") ==> check.reason == JStr(NoReason))
      && (HasKey(m, "is_whole_building") ==> LastValue(m, "is_whole_building", check.isWholeBuilding))
      && (HasKey(m, "confidence") ==> LastValue(m, "confidence", check.confidence))
      && (HasKey(m, "indicators_found") ==> LastValue(m, "indicators_found", check.indicatorsFound))
      && (HasKey(m, "reason") ==> LastValue(m, "reason", check.reason))
  {
  }

  /**
   * A readable legality reply gives `validated` and `reason` the values of
   * the last "is_valid" and "reason" keys, and False and "No reason
   * provided." when they are missing; the scope check rides along.
   */
  lemma LegalityDefaults(text: string, judgeScope: string -> Reply, judgeLegality: string -> Reply,
                         parse: string -> Parsed)
    requires Truthy(ScopeCheckOf(text, judgeScope, parse).isWholeBuilding)
    requires judgeLegality(text).Answer?
    requires DecodeObject(StripFences(judgeLegality(text).content), parse).ObjectReply?
    ensures var m := DecodeObject(StripFences(judgeLegality(text).content), parse).members;
      var v := ValidationOf(text, judgeScope, judgeLegality, parse);
      && (!HasKey(m, "is_valid") ==> v.validated == JBool(false))
      && (HasKey(m, "is_valid") ==> LastValue(m, "is_valid", v.validated))
      && (!HasKey(m, "reason") ==> v.reason == JStr(NoReason))
      && (HasKey(m, "reason") ==> LastValue(m, "reason", v.reason))
      && v.buildingCheck == ScopeCheckOf(text, judgeScope, parse)
  {
  }

  /**
   * The scope check says "whole building" only when the judge answered, the
   * answer decoded to a dict, and that dict holds a truthy "is_whole_building".
   */
  lemma {:induction false} WholeBuildingNeedsEvidence(text: string, judgeScope: string -> Reply, parse: string -> Parsed)
    requires Truthy(ScopeCheckOf(text, judgeScope, parse).isWholeBuilding)
    ensures judgeScope(text).Answer?
    ensures var reply := DecodeObject(StripFences(judgeScope(text).content), parse);
      && reply.ObjectReply?
      && exists i :: 0 <= i < |reply.members| && reply.members[i].0 == "is_whole_building" && Truthy(reply.members[i].1)
  {
    var reply := DecodeObject(StripFences(judgeScope(text).content), parse);
    var v := Get(reply.members, "is_whole_building", JBool(false));
    assert HasKey(reply.members, "is_whole_building");
    var i :| 0 <= i < |reply.members| && reply.members[i] == ("is_whole_building", v);
    assert reply.members[i].0 == "is_whole_building" && Truthy(reply.members[i].1);
  }

  /** A negative validation with the given reason. */
  function Rejected(reason: string, check: ScopeCheck): (v: Validation)
    ensures !Truthy(v.validated) && v.buildingCheck == check
  {
    Validation(JBool(false), JStr(reason), check)
  }

  /** The reason given for an invoice the scope check did not take for a whole-building one. */
  function SingleApartmentReason(check: ScopeCheck): string {
    SingleApartmentPrefix + Show(check.reason)
  }

  /** The legality answer read from a decoded reply, each missing key taking its default. */
  function ValidationFromObject(members: seq<(string, Json)>, check: ScopeCheck): Validation {
    Validation(Get(members, "is_valid", JBool(false)), Get(members, "reason", JStr(NoReason)), check)
  }

  /** The result of `validate_invoice_via_llm(text)` given the replies of both judges. */
  function ValidationOf(text: string, judgeScope: string -> Reply, judgeLegality: string -> Reply,
                        parse: string -> Parsed): (v: Validation)
    ensures v.buildingCheck == ScopeCheckOf(text, judgeScope, parse)
    ensures Truthy(v.validated) ==> Truthy(v.buildingCheck.isWholeBuilding)
  {
    var check := ScopeCheckOf(text, judgeScope, parse);
    if !Truthy(check.isWholeBuilding) then Rejected(SingleApartmentReason(check), check)
    else
      match judgeLegality(text)
      case CallFailed(detail) => Rejected(ApiFailedPrefix + detail, check)
      case Answer(content) =>
        match DecodeObject(StripFences(content), parse)
        case Unreadable(reason) => Rejected(reason, check)
        case ObjectReply(members) => ValidationFromObject(members, check)
  }

  /**
   * An invoice judged not to cover the whole building is rejected with the
   * scope reason, and the legality judge is never consulted: its replies
   * cannot change the result.
   */
  lemma SingleApartmentShortCircuit(text: string, judgeScope: string -> Reply, judgeLegality: string -> Reply,
                                    otherLegality: string -> Reply, parse: string -> Parsed)
    requires !Truthy(ScopeCheckOf(text, judgeScope, parse).isWholeBuilding)
    ensures var v := ValidationOf(text, judgeScope, judgeLegality, parse);
      && v == ValidationOf(text, judgeScope, otherLegality, parse)
      && v.validated == JBool(false)
      && v.reason == JStr(SingleApartmentPrefix + Show(v.buildingCheck.reason))
  {
  }

  /** Once the scope check passes, a failed or unreadable legality reply rejects the invoice. */
  lemma LegalityDegrades(text: string, judgeScope: string -> Reply, judgeLegality: string -> Reply,
                         parse: string -> Parsed)
    requires Truthy(ScopeCheckOf(text, judgeScope, parse).isWholeBuilding)
    requires judgeLegality(text).CallFailed? || DecodeObject(StripFences(judgeLegality(text).content), parse).Unreadable?
    ensures var v := ValidationOf(text, judgeScope, judgeLegality, parse);
      && v.validated == JBool(false) && v.reason.JStr?
      && (judgeLegality(text).CallFailed? ==> v.reason.s == ApiFailedPrefix + judgeLegality(text).detail)
      && (judgeLegality(text).Answer? ==> StartsWith(v.reason.s, ParseFailedPrefix))
  {
  }

  /**
   * An invoice is validated exactly when it passed the scope check and the
   * legality judge's decoded reply holds a truthy "is_valid".
   */
  lemma {:induction false} ValidatedExactly(text: string, judgeScope: string -> Reply, judgeLegality: string -> Reply,
                                            parse: string -> Parsed)
    ensures Truthy(ValidationOf(text, judgeScope, judgeLegality, parse).validated) <==>
      && Truthy(ScopeCheckOf(text, judgeScope, parse).isWholeBuilding)
      && judgeLegality(text).Answer?
      && DecodeObject(StripFences(judgeLegality(text).content), parse).ObjectReply?
      && var m := DecodeObject(StripFences(judgeLegality(text).content), parse).members;
         LastIsTruthy(m, "is_valid")
  {
    if !Truthy(ScopeCheckOf(text, judgeScope, parse).isWholeBuilding) {
      SingleApartmentShortCircuit(text, judgeScope, judgeLegality, judgeLegality, parse);
    } else if judgeLegality(text).CallFailed?
              || DecodeObject(StripFences(judgeLegality(text).content), parse).Unreadable? {
      LegalityDegrades(text, judgeScope, judgeLegality, parse);
    } else {
      var m := DecodeObject(StripFences(judgeLegality(text).content), parse).members;
      ValidatedByLegality(text, judgeScope, judgeLegality, parse);
      TruthyLastIsValid(m);
    }
  }

  /** After a passed scope check and a decoded legality reply, `validated` is that reply's "is_valid". */
  lemma ValidatedByLegality(text: string, judgeScope: string -> Reply, judgeLegality: string -> Reply,
                            parse: string -> Parsed)
    requires Truthy(ScopeCheckOf(text, judgeScope, parse).isWholeBuilding)
    requires judgeLegality(text).Answer?
    requires DecodeObject(StripFences(judgeLegality(text).content), parse).ObjectReply?
    ensures ValidationOf(text, judgeScope, judgeLegality, parse).validated
         == Get(DecodeObject(StripFences(judgeLegality(text).content), parse).members, "is_valid", JBool(false))
  {
  }

  /** The object's last member named `key` holds a truthy value. */
  predicate LastIsTruthy(m: seq<(string, Json)>, key: string) {
    exists i :: 0 <= i < |m| && m[i].0 == key && Truthy(m[i].1) && forall j :: i < j < |m| ==> m[j].0 != key
  }

  /** `parsed.get("is_valid", False)` is truthy exactly when the last "is_valid" member is. */
  lemma TruthyLastIsValid(m: seq<(string, Json)>)
    ensures Truthy(Get(m, "is_valid", JBool(false))) <==> LastIsTruthy(m, "is_valid")
  {
    var v := Get(m, "is_valid", JBool(false));
    if HasKey(m, "is_valid") {
      assert LastValue(m, "is_valid", v);
      var i :| 0 <= i < |m| && m[i] == ("is_valid", v) && forall j :: i < j < |m| ==> m[j].0 != "is_valid";
      if Truthy(v) {
        assert m[i].0 == "is_valid" && Truthy(m[i].1);
      }
      if exists k :: 0 <= k < |m| && m[k].0 == "is_valid" && Truthy(m[k].1)
                     && forall j :: k < j < |m| ==> m[j].0 != "is_valid" {
        var k :| 0 <= k < |m| && m[k].0 == "is_valid" && Truthy(m[k].1)
                 && forall j :: k < j < |m| ==> m[j].0 != "is_valid";
        assert k == i;
      }
    } else {
      assert v == JBool(false);
      assert forall k :: 0 <= k < |m| ==> m[k].0 != "is_valid";
    }
  }

  /**
   * The fence cleaning both judges apply in place to the reply text:
   * trim, drop a leading "```json", drop a trailing "```", trim again.
   */
  method CleanReply(content: string) returns (raw: string)
    ensures raw == StripFences(content)
  {
    raw := Strip(content);
    ghost var trimmed := raw;
    if StartsWith(raw, JsonFence) {
      raw := raw[7..];
    }
    assert raw == DropOpening(trimmed);
    ghost var unfenced := raw;
    if EndsWith(raw, Fence) {
      raw := raw[..|raw| - 3];
    }
    assert raw == DropClosing(unfenced);
    raw := Strip(raw);
  }

  /** `check_apartment_vs_building`: one call to the scope judge, fence cleaning, default filling. */
  method CheckApartmentVsBuilding(text: string, judgeScope: string -> Reply, parse: string -> Parsed)
    returns (check: ScopeCheck)
    ensures check == ScopeCheckOf(text, judgeScope, parse)
  {
    var response := judgeScope(text);
    if response.CallFailed? {
      return Negative(ApiFailedPrefix + response.detail);
    }
    var raw := CleanReply(response.content);
    match DecodeObject(raw, parse)
    case Unreadable(reason) =>
      check := Negative(reason);
    case ObjectReply(members) =>
      check := ScopeFromObject(members);
  }

  /** `validate_invoice_via_llm`: the scope check, then (only for whole-building invoices) the legality judge. */
  method ValidateInvoice(text: string, judgeScope: string -> Reply, judgeLegality: string -> Reply,
                         parse: string -> Parsed)
    returns (validation: Validation)
    ensures validation == ValidationOf(text, judgeScope, judgeLegality, parse)
  {
    var buildingCheck := CheckApartmentVsBuilding(text, judgeScope, parse);
    if !Truthy(buildingCheck.isWholeBuilding) {
      return Rejected(SingleApartmentReason(buildingCheck), buildingCheck);
    }
    var response := judgeLegality(text);
    if response.CallFailed? {
      return Rejected(ApiFailedPrefix + response.detail, buildingCheck);
    }
    var raw := CleanReply(response.content);
    match DecodeObject(raw, parse)
    case Unreadable(reason) =>
      validation := Rejected(reason, buildingCheck);
    case ObjectReply(members) =>
      validation := ValidationFromObject(members, buildingCheck);
  }
}
