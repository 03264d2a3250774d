/** The API-key status route (src/app/api/settings/api-key-status/route.ts): how the search
    key found in the environment is classified. */
module ApiKeyStatus {
  import opened Options

  datatype Status = Valid | Invalid

  /** The JSON the route answers with. */
  datatype KeyStatus = KeyStatus(status: Status, message: string)

  /** The value the example environment file ships with. */
  const PlaceholderKey: string := "your_tavily_api_key_here"

  const MinKeyLength: nat := 10

  const NotSetMessage: string := "APIキーが設定されていません"
  const PlaceholderMessage: string := "デフォルトのAPIキーが設定されています"
  const MalformedMessage: string := "APIキーの形式が正しくありません"
  const ValidMessage: string := "APIキーが設定されています"

  /** Lines 5-32 on the value of TAVILY_API_KEY: absent or empty, the placeholder, shorter
      than ten code units, or valid, checked in that order. */
  function CheckKey(apiKey: Option<string>): (r: KeyStatus)
    ensures r.status == Valid <==>
              apiKey.Some? && apiKey.value != PlaceholderKey && |apiKey.value| >= MinKeyLength
    ensures (apiKey.None? || apiKey.value == "") ==> r.message == NotSetMessage
    ensures apiKey == Some(PlaceholderKey) ==> r.message == PlaceholderMessage
    ensures apiKey.Some? && 0 < |apiKey.value| < MinKeyLength ==> r.message == MalformedMessage
    ensures r.status == Valid ==> r.message == ValidMessage
  {
    if apiKey.None? || apiKey.value == "" then KeyStatus(Invalid, NotSetMessage)
    else if apiKey.value == PlaceholderKey then KeyStatus(Invalid, PlaceholderMessage)
    else if |apiKey.value| < MinKeyLength then KeyStatus(Invalid, MalformedMessage)
    else KeyStatus(Valid, ValidMessage)
  }

  /** The placeholder is long enough to pass the length check: only the explicit
      comparison rejects it. */
  lemma PlaceholderPassesLengthCheck()
    ensures |PlaceholderKey| >= MinKeyLength
    ensures CheckKey(Some(PlaceholderKey)).status == Invalid
  {
  }

  /** The four messages differ, so the message tells which check failed. */
  lemma MessageIdentifiesCase(a: Option<string>, b: Option<string>)
    requires CheckKey(a).message == CheckKey(b).message
    ensures CheckKey(a) == CheckKey(b)
  {
    assert |NotSetMessage| == 15 && |PlaceholderMessage| == 20;
    assert |MalformedMessage| == 17 && |ValidMessage| == 14;
  }
}
