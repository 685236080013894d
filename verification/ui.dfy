/**
 * The client side of the service: turning the `data:` URLs of a result
 * back into pictures, the label's emoji and colour, and the message for
 * the service's health probe.
 */
module Ui {
  import opened Wrappers
  import opened Base64
  import opened Text
  import opened Json
  import Visualization
  import Inference

  /** Why a URL could not be turned back into bytes. */
  datatype UiFault =
    | MissingPayload  // no second comma-separated segment (IndexError)
    | BadBase64       // the payload is not Base64 (binascii.Error)
    | NotText         // the value is not a string (it has no `split`)

  /**
   * `base64_to_image`, up to the bytes handed to the imaging library: a
   * falsy value gives no picture, otherwise the second comma-separated
   * segment is decoded.
   */
  function Base64ToImage(v: Value): (r: Result<Option<seq<Byte>>, UiFault>)
    ensures !Truthy(v) ==> r == Ok(None)
    ensures Truthy(v) && v.Str? && Segment(v.s, ',', 1).None? ==> r == Err(MissingPayload)
    ensures Truthy(v) && v.Str? && Segment(v.s, ',', 1).Some? ==>
      (r.Ok? <==> Decode(Segment(v.s, ',', 1).value).Some?) &&
      (r.Ok? ==> r.value == Decode(Segment(v.s, ',', 1).value))
    ensures Truthy(v) && !v.Str? ==> r == Err(NotText)
  {
    if !Truthy(v) then Ok(None)
    else
      match v
      case Str(s) => (
        match Segment(s, ',', 1)
        case None => Err(MissingPayload)
        case Some(payload) =>
          match Decode(payload)
          case None => Err(BadBase64)
          case Some(bytes) => Ok(Some(bytes)))
      case _ => Err(NotText)
  }

  /** The pictures the service sends are recovered byte for byte. */
  lemma Base64ToImageRoundTrip(png: seq<Byte>)
    ensures Base64ToImage(Str(Visualization.ImageToBase64(png))) == Ok(Some(png))
  {
    Visualization.WrappedSplits(png);
    DecodeEncode(png);
  }

  /**
   * The picture shown for a result field: none when the key is missing or
   * holds a falsy value, the decoded bytes otherwise.
   */
  function ImageField(result: Dict, key: string): (r: Result<Option<seq<Byte>>, UiFault>)
    ensures key !in result ==> r == Ok(None)
    ensures key in result && result[key] == Null ==> r == Ok(None)
    ensures key in result && Truthy(result[key]) ==> r == Base64ToImage(result[key])
  {
    var v := Get(result, key, Null);
    if Truthy(v) then Base64ToImage(v) else Ok(None)
  }

  datatype Style = Style(emoji: string, color: string)

  /** The emoji and colour of the label: red microbe for "Infectado", green tick for anything else. */
  function StatusStyle(prediction: Value): (st: Style)
    ensures prediction == Str("Infectado") ==> st == Style("🦠", "red")
    ensures prediction != Str("Infectado") ==> st == Style("✅", "green")
  {
    if prediction == Str("Infectado") then Style("🦠", "red") else Style("✅", "green")
  }

  /** The two labels the service gives are shown apart: red for the infected class only. */
  lemma LabelStyles(classId: nat)
    ensures StatusStyle(Str(Inference.Label(classId))).color == "red" <==> classId == 0
    ensures StatusStyle(Str(Inference.Label(0))) != StatusStyle(Str(Inference.Label(1)))
  {
  }

  /** The outcome of the health probe: a status code, or an exception. */
  datatype Probe = Answered(status: int) | Raised

  /** `check_api_status`. */
  function ApiStatus(probe: Probe): (msg: string)
    ensures probe == Answered(200) ==> msg == "🟢Connected API "
    ensures probe.Answered? && probe.status != 200 ==> msg == "🟡API with problems"
    ensures probe.Raised? ==> msg == "🔴 API Disconnected "
  {
    match probe
    case Answered(code) => if code == 200 then "🟢Connected API " else "🟡API with problems"
    case Raised => "🔴 API Disconnected "
  }

  /** The three messages are distinct, so the message tells the probe's outcome class apart. */
  lemma ApiStatusDistinguishes(a: Probe, b: Probe)
    requires ApiStatus(a) == ApiStatus(b)
    ensures a.Raised? <==> b.Raised?
    ensures a.Answered? && b.Answered? ==> (a.status == 200 <==> b.status == 200)
  {
    var m1, m2, m3 := "🟢Connected API ", "🟡API with problems", "🔴 API Disconnected ";
    assert m1[0] != m2[0] && m1[0] != m3[0] && m2[0] != m3[0];
  }
}
