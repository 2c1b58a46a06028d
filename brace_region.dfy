/**
 * The JSON region the AI-assisted run scrapes out of the model's reply with
 * `text.match(/\{[^]*\}/)`. `[^]` matches every character, newlines included, so the
 * pattern matches exactly the substrings that open with `{`, close with `}` and are at
 * least two characters long. `match` without the global flag reports the leftmost
 * match, and for that start the greedy `[^]*` makes it the longest one.
 */
module BraceRegion {
  import opened Optional

  /** The pattern `\{[^]*\}` matches the substring s[i..j]. */
  predicate Matches(s: string, i: int, j: int) {
    0 <= i && i + 2 <= j <= |s| && s[i] == '{' && s[j - 1] == '}'
  }

  /** Some `{` in s has a `}` somewhere after it. */
  predicate HasBracePair(s: string) {
    exists i, j | 0 <= i < j < |s| :: s[i] == '{' && s[j] == '}'
  }

  /** Position of the first occurrence of c in s. */
  function IndexOf(s: string, c: char): (r: Option<nat>)
    ensures r.Some? ==> r.value < |s| && s[r.value] == c
    ensures r.Some? ==> forall k | 0 <= k < r.value :: s[k] != c
    ensures r.None? ==> forall k | 0 <= k < |s| :: s[k] != c
  {
    if s == [] then None
    else if s[0] == c then Some(0)
    else
      match IndexOf(s[1..], c)
      case None => None
      case Some(k) => Some(k + 1)
  }

  /** Position of the last occurrence of c in s. */
  function LastIndexOf(s: string, c: char): (r: Option<nat>)
    ensures r.Some? ==> r.value < |s| && s[r.value] == c
    ensures r.Some? ==> forall k | r.value < k < |s| :: s[k] != c
    ensures r.None? ==> forall k | 0 <= k < |s| :: s[k] != c
  {
    if s == [] then None
    else if s[|s| - 1] == c then Some(|s| - 1)
    else LastIndexOf(s[..|s| - 1], c)
  }

  /**
   * The bounds [i, j) of the match `s.match(/\{[^]*\}/)` reports: it runs from the
   * first `{` of s to the last `}` of s, and is the leftmost and then longest match.
   */
  function MatchSpan(s: string): (r: Option<(nat, nat)>)
    ensures r.None? <==> forall i, j :: !Matches(s, i, j)
    ensures r.Some? ==> Matches(s, r.value.0, r.value.1)
    ensures r.Some? ==> forall i, j :: Matches(s, i, j) ==> r.value.0 <= i
    ensures r.Some? ==> forall j :: Matches(s, r.value.0, j) ==> j <= r.value.1
    ensures r.Some? ==> forall k | 0 <= k < r.value.0 :: s[k] != '{'
    ensures r.Some? ==> forall k | r.value.1 <= k < |s| :: s[k] != '}'
  {
    match IndexOf(s, '{')
    case None => None
    case Some(i) =>
      match LastIndexOf(s, '}')
      case None => None
      case Some(j) =>
        if i < j then
          assert Matches(s, i, j + 1);
          Some((i, j + 1))
        else None
  }

  /** `jsonMatch[0]`, or None where `match` returns null. */
  function Match(s: string): (m: Option<string>)
    ensures m.Some? <==> HasBracePair(s)
    ensures m.Some? ==> 2 <= |m.value| && m.value[0] == '{' && m.value[|m.value| - 1] == '}'
  {
    match MatchSpan(s)
    case None => None
    case Some((i, j)) =>
      assert Matches(s, i, j);
      Some(s[i..j])
  }

  /** Whatever precedes the first `{` and follows the last `}` is cut away, nothing else. */
  lemma {:induction false} MatchIsFirstToLast(s: string, i: nat, j: nat)
    requires i < j < |s| && s[i] == '{' && s[j] == '}'
    requires forall k | 0 <= k < i :: s[k] != '{'
    requires forall k | j < k < |s| :: s[k] != '}'
    ensures Match(s) == Some(s[i..j + 1])
  {
    assert Matches(s, i, j + 1);
    var span := MatchSpan(s);
    assert span.Some? && span.value.0 <= i && j + 1 <= span.value.1;
    assert s[span.value.0] == '{' && s[span.value.1 - 1] == '}';
  }

  /**
   * Text wrapped in formatting that holds no braces of its own (a Markdown code fence,
   * a sentence of preamble) yields exactly the brace-delimited object inside it.
   */
  lemma {:induction false} WrappedObject(before: string, body: string, after: string)
    requires '{' !in before && '}' !in after
    requires 2 <= |body| && body[0] == '{' && body[|body| - 1] == '}'
    ensures Match(before + body + after) == Some(body)
  {
    var s := before + body + after;
    var i, j := |before|, |before| + |body| - 1;
    assert s[i] == body[0] && s[j] == body[|body| - 1];
    forall k | 0 <= k < i ensures s[k] != '{' {
      assert s[k] == before[k];
    }
    forall k | j < k < |s| ensures s[k] != '}' {
      assert s[k] == after[k - j - 1];
    }
    MatchIsFirstToLast(s, i, j);
    assert s[i..j + 1] == body;
  }

  /** The reply shape the prompt anticipates: a JSON object inside a ```json code fence. */
  lemma CodeFencedReply()
    ensures Match("```json\n" + "{\"location\":\"Seoul\",\"importance\":8}" + "\n```")
         == Some("{\"location\":\"Seoul\",\"importance\":8}")
  {
    WrappedObject("```json\n", "{\"location\":\"Seoul\",\"importance\":8}", "\n```");
  }
}
