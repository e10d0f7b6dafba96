/** The two byte limits on what is returned to a model: `enforce_output_size` on sandbox output
    and the response limit of `proxy_mcp_call`. */
module OutputLimits {
  import opened Text
  import opened Utf8

  function MaxSize(tier: string): (n: nat)
    ensures n % 1024 == 0
  {
    match tier
    case "enterprise" => 5 * 1024 * 1024
    case "dedicated" => 10 * 1024 * 1024
    case _ => 1024 * 1024
  }

  lemma SizeTable(tier: string)
    ensures MaxSize("enterprise") == 5242880 && MaxSize("dedicated") == 10485760
    ensures tier != "enterprise" && tier != "dedicated" ==> MaxSize(tier) == 1048576
  {}

  function Notice(tier: string): (r: string) {
    "\n\n[OUTPUT TRUNCATED: exceeded " + Decimal(MaxSize(tier) / 1024) + "KB limit for " + tier + " tier]"
  }

  /** Output that fits is returned as it is; otherwise the longest prefix of whole characters that
      fits, at most three bytes short of the limit, followed by the notice. */
  function EnforceOutputSize(output: string, tier: string): (r: string)
    ensures Size(output) <= MaxSize(tier) ==> r == output
    ensures Size(output) > MaxSize(tier) ==>
              exists p :: && r == p + Notice(tier) && LongestFitting(p, output, MaxSize(tier))
                          && MaxSize(tier) - 3 <= Size(p) && p != output
    ensures Size(r) <= MaxSize(tier) + Size(Notice(tier))
  {
    var encoded := Encode(output);
    if |encoded| <= MaxSize(tier) then output
    else
      var truncated := DecodeIgnore(encoded[..MaxSize(tier)]);
      CutKeepsLongestPrefix(output, MaxSize(tier));
      SizeConcat(truncated, Notice(tier));
      truncated + Notice(tier)
  }

  /** `s[:e]` for any integer `e`; a negative one counts from the end. */
  function PySlice(s: string, e: int): (r: string)
    ensures r <= s
  {
    if e < 0 then (if |s| + e < 0 then "" else s[..|s| + e]) else if e < |s| then s[..e] else s
  }

  /** The response limit: cut to a quarter as many characters as bytes allowed. The setting is an
      unchecked integer; the limit is met exactly when it is not negative. */
  method TruncateResponse(text: string, responseLimit: int) returns (output: string, truncated: bool)
    ensures truncated <==> Size(text) > responseLimit
    ensures !truncated ==> output == text
    ensures output <= text
    ensures Size(output) <= responseLimit <==> responseLimit >= 0
    ensures truncated && responseLimit >= 0 ==> |output| == responseLimit / 4 < |text|
    ensures responseLimit >= 0 ==> forall p :: LongestFitting(p, text, responseLimit) ==>
              |output| <= |p| && (truncated ==> |p| < 4 * |output| + 4)
  {
    output, truncated := text, false;
    if |Encode(output)| > responseLimit {
      SizeBounds(text);
      output := PySlice(output, responseLimit / 4);
      truncated := true;
    }
    SizeBounds(output);
    if responseLimit >= 0 {
      forall p | LongestFitting(p, text, responseLimit)
        ensures |output| <= |p| && (truncated ==> |p| < 4 * |output| + 4)
      {
        LongestIsMaximal(p, text, responseLimit, |output|);
        assert text[..|text|] == text;
        SizeBounds(p);
      }
    }
  }
}
