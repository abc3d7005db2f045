/** Rust string primitives used by the parsers: whitespace, searching, trimming and line splitting. */
module Text {

  datatype Option<+T> = None | Some(value: T)

  datatype Result<+T, +E> = Ok(value: T) | Err(error: E)

  /** `char::is_whitespace`: the Unicode White_Space property. */
  predicate IsWhitespace(c: char) {
    || '\t' <= c <= '\r'
    || c == ' '
    || c == '\U{85}' || c == '\U{A0}' || c == '\U{1680}'
    || '\U{2000}' <= c <= '\U{200A}'
    || c == '\U{2028}' || c == '\U{2029}' || c == '\U{202F}' || c == '\U{205F}' || c == '\U{3000}'
  }

  predicate IsDigit(c: char) {
    '0' <= c <= '9'
  }

  /** An ASCII letter, digit or underscore. */
  predicate IsNameChar(c: char) {
    'a' <= c <= 'z' || 'A' <= c <= 'Z' || IsDigit(c) || c == '_'
  }

  predicate StartsWith(s: string, prefix: string) {
    |prefix| <= |s| && s[..|prefix|] == prefix
  }

  /** The index of the first `c`, or the length. */
  function Find(s: string, c: char): (k: nat)
    ensures k <= |s|
    ensures forall i :: 0 <= i < k ==> s[i] != c
    ensures k < |s| ==> s[k] == c
  {
    if s == "" || s[0] == c then 0 else 1 + Find(s[1..], c)
  }

  /** The index of the first whitespace character, or the length. */
  function FindWhitespace(s: string): (k: nat)
    ensures k <= |s|
    ensures forall i :: 0 <= i < k ==> !IsWhitespace(s[i])
    ensures k < |s| ==> IsWhitespace(s[k])
  {
    if s == "" || IsWhitespace(s[0]) then 0 else 1 + FindWhitespace(s[1..])
  }

  /** The length of the leading run of whitespace. */
  function Lead(s: string): (k: nat)
    ensures k <= |s|
    ensures forall i :: 0 <= i < k ==> IsWhitespace(s[i])
    ensures k < |s| ==> !IsWhitespace(s[k])
  {
    if s == "" || !IsWhitespace(s[0]) then 0 else 1 + Lead(s[1..])
  }

  predicate AllWhitespace(s: string) {
    forall i :: 0 <= i < |s| ==> IsWhitespace(s[i])
  }

  function TrimStart(s: string): (t: string)
    ensures t == s[Lead(s)..]
  {
    s[Lead(s)..]
  }

  /** Where the trailing run of whitespace begins. */
  function Trail(s: string): (k: nat)
    ensures k <= |s|
    ensures forall i :: k <= i < |s| ==> IsWhitespace(s[i])
    ensures k > 0 ==> !IsWhitespace(s[k - 1])
  {
    if s == "" || !IsWhitespace(s[|s| - 1]) then |s| else Trail(s[..|s| - 1])
  }

  function Trim(s: string): string {
    var t := TrimStart(s);
    t[..Trail(t)]
  }

  function StripCr(s: string): string {
    if s != "" && s[|s| - 1] == '\r' then s[..|s| - 1] else s
  }

  /** `str::lines`: newline-terminated lines, each without one trailing carriage return. */
  function Lines(s: string): seq<string>
    decreases |s|
  {
    var k := Find(s, '\n');
    if s == "" then [] else if k == |s| then [s] else [StripCr(s[..k])] + Lines(s[k + 1..])
  }

  /** The first occurrence is the only split of `a + [c] + b` at a `c` missing from `a`. */
  lemma {:induction false} FindSplit(a: string, c: char, b: string)
    requires c !in a
    ensures Find(a + [c] + b, c) == |a|
  {
    if a != "" {
      FindSplit(a[1..], c, b);
      assert (a + [c] + b)[1..] == a[1..] + [c] + b;
    }
  }

  lemma {:induction false} LeadOf(w: string, s: string)
    requires AllWhitespace(w) && (s == "" || !IsWhitespace(s[0]))
    ensures Lead(w + s) == |w|
  {
    hide IsWhitespace;
    if w == "" {
      assert w + s == s;
    } else {
      assert (w + s)[1..] == w[1..] + s;
      LeadOf(w[1..], s);
    }
  }

  lemma {:induction false} TrailOf(s: string, w: string)
    requires AllWhitespace(w) && (s == "" || !IsWhitespace(s[|s| - 1]))
    ensures Trail(s + w) == |s|
  {
    hide IsWhitespace;
    if w == "" {
      assert s + w == s;
    } else {
      var n := |w| - 1;
      assert (s + w)[..|s + w| - 1] == s + w[..n];
      TrailOf(s, w[..n]);
    }
  }

  /** Trimming takes the whitespace off both ends and nothing else. */
  lemma TrimExact(w: string, s: string, w': string)
    requires AllWhitespace(w) && AllWhitespace(w')
    requires s == "" || (!IsWhitespace(s[0]) && !IsWhitespace(s[|s| - 1]))
    ensures Trim(w + s + w') == s
  {
    hide IsWhitespace, Lead, Trail;
    if s == "" {
      assert w + s + w' == (w + w') + "";
      LeadOf(w + w', "");
      TrailOf("", "");
    } else {
      assert w + s + w' == w + (s + w');
      LeadOf(w, s + w');
      assert (w + (s + w'))[|w|..] == s + w';
      TrailOf(s, w');
      assert (s + w')[..|s|] == s;
    }
  }
}
