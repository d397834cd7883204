/**
 * services/geminiService.ts: what `fetchStockData` does with the model's answer.
 * It extracts a JSON candidate from the free text (`parseCodeBlock`), filters and
 * de-duplicates the grounding citations, and coerces the parsed payload into a
 * StockData with per-field defaults. The request itself is an input: the awaited
 * `generateContent` answer or the error it threw.
 */
module GeminiService {
  import opened Wrappers
  import opened Types
  import opened JsRuntime

  // ---------------------------------------------------------------------------
  // parseCodeBlock, stage 1: the regex /```json\s*([\s\S]*?)\s*```/
  // ---------------------------------------------------------------------------

  const FenceOpen: string := "```json"
  const Fence: string := "```"

  /** The first index at or after `from` that is not white space (or the end). */
  function SkipWhitespace(s: string, from: nat): (k: nat)
    requires from <= |s|
    ensures from <= k <= |s|
    ensures AllWhitespace(s[from..k])
    ensures k == |s| || !IsWhitespace(s[k])
    decreases |s| - from
  {
    if from < |s| && IsWhitespace(s[from]) then
      var k := SkipWhitespace(s, from + 1);
      assert s[from..k] == [s[from]] + s[from + 1..k];
      k
    else from
  }

  /** The start of the run of white space that ends at `hi`, not going below `lo`. */
  function BackOverWhitespace(s: string, lo: nat, hi: nat): (q: nat)
    requires lo <= hi <= |s|
    ensures lo <= q <= hi
    ensures AllWhitespace(s[q..hi])
    ensures q == lo || !IsWhitespace(s[q - 1])
    decreases hi - lo
  {
    if lo < hi && IsWhitespace(s[hi - 1]) then
      var q := BackOverWhitespace(s, lo, hi - 1);
      assert s[q..hi] == s[q..hi - 1] + [s[hi - 1]];
      q
    else hi
  }

  /** A fence inside the slice `s[lo..hi]` is a fence of `s`. */
  lemma SliceOccurrence(s: string, lo: nat, hi: nat, pat: string, m: nat)
    requires lo <= hi <= |s| && OccursAt(s[lo..hi], pat, m)
    ensures OccursAt(s, pat, lo + m)
  {
    var t := s[lo..hi];
    assert forall i :: 0 <= i < |t| ==> t[i] == s[lo + i];
    assert t[m..m + |pat|] == s[lo + m..lo + m + |pat|];
  }

  /**
   * The capture group of the first match of the fenced-block regex, if any.
   * The leftmost match starts at the first "```json"; the greedy `\s*` takes all
   * the white space after it; the lazy group then ends where only white space
   * separates it from the first "```" that follows.
   */
  function FencedCapture(text: string): (r: Option<string>)
    ensures r.None? <==> !exists a: nat, e: nat :: OccursAt(text, FenceOpen, a) && a + |FenceOpen| <= e && OccursAt(text, Fence, e)
    ensures r.Some? ==> r.value == [] || (!IsWhitespace(r.value[0]) && !IsWhitespace(r.value[|r.value| - 1]))
    ensures r.Some? ==> forall m :: !OccursAt(r.value, Fence, m)
  {
    var p := IndexOfFrom(text, FenceOpen, 0);
    if p < 0 then None
    else
      var w := SkipWhitespace(text, p + |FenceOpen|);
      var j := IndexOfFrom(text, Fence, w);
      if j < 0 then
        NoCloseAfterFirstOpen(text, p, w);
        None
      else
        var q := BackOverWhitespace(text, w, j);
        FenceFreeCapture(text, w, q, j);
        Some(text[w..q])
  }

  /**
   * When no "```" starts after the white space that follows the first "```json",
   * none starts anywhere after any "```json": the skipped white space holds no backtick.
   */
  lemma NoCloseAfterFirstOpen(text: string, p: nat, w: nat)
    requires OccursAt(text, FenceOpen, p) && forall m :: 0 <= m < p ==> !OccursAt(text, FenceOpen, m)
    requires p + |FenceOpen| <= w <= |text| && AllWhitespace(text[p + |FenceOpen|..w])
    requires forall m :: w <= m ==> !OccursAt(text, Fence, m)
    ensures !exists a: nat, e: nat :: OccursAt(text, FenceOpen, a) && a + |FenceOpen| <= e && OccursAt(text, Fence, e)
  {
    var b := p + |FenceOpen|;
    forall m | b <= m < w ensures !OccursAt(text, Fence, m) {
      assert text[m] == text[b..w][m - b];
      NoFenceWithoutBacktick(text, m);
    }
    forall a: nat, e: nat | OccursAt(text, FenceOpen, a) && a + |FenceOpen| <= e
      ensures !OccursAt(text, Fence, e)
    {
      assert p <= a;
    }
  }

  lemma FenceFreeCapture(text: string, w: nat, q: nat, j: nat)
    requires w <= q <= j <= |text|
    requires forall m :: w <= m < j ==> !OccursAt(text, Fence, m)
    ensures forall m :: !OccursAt(text[w..q], Fence, m)
  {
    forall m | OccursAt(text[w..q], Fence, m) ensures false {
      SliceOccurrence(text, w, q, Fence, m);
    }
  }

  /** Both fences start with a backtick, so neither occurs where there is none. */
  lemma NoFenceWithoutBacktick(s: string, m: nat)
    requires m < |s| && s[m] != '`'
    ensures !OccursAt(s, Fence, m) && !OccursAt(s, FenceOpen, m)
  {
  }

  lemma IndexOfFromAt(s: string, pat: string, from: nat, k: nat)
    requires from <= k && OccursAt(s, pat, k)
    requires forall m :: from <= m < k ==> !OccursAt(s, pat, m)
    ensures IndexOfFrom(s, pat, from) == k
  {
  }

  lemma SkipWhitespaceAt(s: string, from: nat, k: nat)
    requires from <= k <= |s| && AllWhitespace(s[from..k]) && (k == |s| || !IsWhitespace(s[k]))
    ensures SkipWhitespace(s, from) == k
  {
  }

  lemma BackOverWhitespaceAt(s: string, lo: nat, hi: nat, q: nat)
    requires lo <= q <= hi <= |s| && AllWhitespace(s[q..hi]) && (q == lo || !IsWhitespace(s[q - 1]))
    ensures BackOverWhitespace(s, lo, hi) == q
  {
  }

  /** What makes FencedCapture return `text[w..q]`, stated on positions. */
  lemma FencedCaptureAt(text: string, a: nat, w: nat, q: nat, e: nat)
    requires OccursAt(text, FenceOpen, a) && forall m :: 0 <= m < a ==> !OccursAt(text, FenceOpen, m)
    requires OccursAt(text, Fence, e) && a + |FenceOpen| <= w <= q <= e
    requires AllWhitespace(text[a + |FenceOpen|..w]) && (w == |text| || !IsWhitespace(text[w]))
    requires forall m :: w <= m < e ==> !OccursAt(text, Fence, m)
    requires AllWhitespace(text[q..e]) && (q == w || !IsWhitespace(text[q - 1]))
    ensures FencedCapture(text) == Some(text[w..q])
  {
    IndexOfFromAt(text, FenceOpen, 0, a);
    SkipWhitespaceAt(text, a + |FenceOpen|, w);
    IndexOfFromAt(text, Fence, w, e);
    BackOverWhitespaceAt(text, w, e, q);
  }

  /** The positions of a text laid out as prefix, "```json", lead, body, trail, "```". */
  predicate Layout(text: string, prefix: string, lead: string, body: string, trail: string) {
    var a := |prefix|; var b := a + |FenceOpen|; var c := b + |lead|;
    var d := c + |body|; var e := d + |trail|;
    && e + |Fence| <= |text|
    && text[..a] == prefix && text[a..b] == FenceOpen && text[b..c] == lead
    && text[c..d] == body && text[d..e] == trail && text[e..e + |Fence|] == Fence
  }

  /** What such a layout says about where the fences occur. */
  lemma LayoutFacts(text: string, prefix: string, lead: string, body: string, trail: string)
    requires Layout(text, prefix, lead, body, trail) && AllWhitespace(trail)
    ensures var a := |prefix|; var d := a + |FenceOpen| + |lead| + |body|; var e := d + |trail|;
      && OccursAt(text, FenceOpen, a) && OccursAt(text, Fence, e) && text[e] == '`'
      && (forall m :: d <= m < e ==> !OccursAt(text, Fence, m))
  {
    var d := |prefix| + |FenceOpen| + |lead| + |body|;
    var e := d + |trail|;
    forall m | d <= m < e ensures !OccursAt(text, Fence, m) {
      assert text[m] == text[d..e][m - d];
      NoFenceWithoutBacktick(text, m);
    }
    assert text[e] == text[e..e + |Fence|][0];
  }

  /** FencedCapture on such a layout is the body. */
  lemma FencedCaptureOfLayout(text: string, prefix: string, lead: string, body: string, trail: string)
    requires AllWhitespace(lead) && AllWhitespace(trail)
    requires body == [] || (!IsWhitespace(body[0]) && !IsWhitespace(body[|body| - 1]))
    requires Layout(text, prefix, lead, body, trail)
    requires forall m :: 0 <= m < |prefix| ==> !OccursAt(text, FenceOpen, m)
    requires var c := |prefix| + |FenceOpen| + |lead|;
      forall m :: c <= m < c + |body| ==> !OccursAt(text, Fence, m)
    ensures FencedCapture(text) == Some(body)
  {
    LayoutFacts(text, prefix, lead, body, trail);
    var a := |prefix|;
    var b := a + |FenceOpen|;
    var c := b + |lead|;
    var d := c + |body|;
    var e := d + |trail|;
    if body == [] {
      EmptyBodyFacts(text, prefix, lead, trail);
      FencedCaptureAt(text, a, e, e, e);
    } else {
      NonEmptyBodyFacts(text, prefix, lead, body, trail);
      assert forall m :: c <= m < e ==> !OccursAt(text, Fence, m) by {
        forall m | c <= m < e ensures !OccursAt(text, Fence, m) {
          if m >= d {
            assert d <= m < e;
          }
        }
      }
      FencedCaptureAt(text, a, c, d, e);
    }
  }

  lemma EmptyBodyFacts(text: string, prefix: string, lead: string, trail: string)
    requires Layout(text, prefix, lead, [], trail)
    requires AllWhitespace(lead) && AllWhitespace(trail)
    ensures var b := |prefix| + |FenceOpen|; var e := b + |lead| + |trail|;
      && AllWhitespace(text[b..e]) && AllWhitespace(text[e..e])
  {
    var b := |prefix| + |FenceOpen|;
    var c := b + |lead|;
    var e := c + |trail|;
    assert forall i :: b <= i < c ==> text[i] == text[b..c][i - b];
    assert forall i :: c <= i < e ==> text[i] == text[c..e][i - c];
  }

  lemma NonEmptyBodyFacts(text: string, prefix: string, lead: string, body: string, trail: string)
    requires Layout(text, prefix, lead, body, trail)
    requires AllWhitespace(lead) && AllWhitespace(trail)
    requires body != [] && !IsWhitespace(body[0]) && !IsWhitespace(body[|body| - 1])
    ensures var b := |prefix| + |FenceOpen|; var c := b + |lead|; var d := c + |body|; var e := d + |trail|;
      && AllWhitespace(text[b..c]) && !IsWhitespace(text[c])
      && AllWhitespace(text[d..e]) && !IsWhitespace(text[d - 1])
  {
    var c := |prefix| + |FenceOpen| + |lead|;
    var d := c + |body|;
    assert text[c] == text[c..d][0] && text[d - 1] == text[c..d][|body| - 1];
  }

  /** A reply laid out as prose, a ```json fence, white space, a body, white space, "```" and more text. */
  function Block(prefix: string, lead: string, body: string, trail: string, suffix: string): string {
    prefix + FenceOpen + lead + body + trail + Fence + suffix
  }

  /**
   * Round trip of stage 1: a body written inside a ```json fence, with any white
   * space around it, is exactly what the regex captures, provided this is the
   * first "```json" of the text and no "```" starts inside the body. Backticks
   * elsewhere (inline code in the prose, a lone backtick in the body) are allowed.
   */
  lemma FencedCaptureOfBlock(prefix: string, lead: string, body: string, trail: string, suffix: string)
    requires AllWhitespace(lead) && AllWhitespace(trail)
    requires body == [] || (!IsWhitespace(body[0]) && !IsWhitespace(body[|body| - 1]))
    requires forall m :: 0 <= m < |prefix| ==> !OccursAt(Block(prefix, lead, body, trail, suffix), FenceOpen, m)
    requires var c := |prefix| + |FenceOpen| + |lead|;
      forall m :: c <= m < c + |body| ==> !OccursAt(Block(prefix, lead, body, trail, suffix), Fence, m)
    ensures FencedCapture(Block(prefix, lead, body, trail, suffix)) == Some(body)
  {
    var t1 := prefix + FenceOpen;
    var t2 := t1 + lead;
    var t3 := t2 + body;
    var t4 := t3 + trail;
    var t5 := t4 + Fence;
    var text := t5 + suffix;
    assert text == Block(prefix, lead, body, trail, suffix);
    assert text[..|t5|] == t5;
    assert t5[..|t4|] == t4 && t5[|t4|..] == Fence;
    assert t4[..|t3|] == t3 && t4[|t3|..] == trail;
    assert t3[..|t2|] == t2 && t3[|t2|..] == body;
    assert t2[..|t1|] == t1 && t2[|t1|..] == lead;
    assert t1[..|prefix|] == prefix && t1[|prefix|..] == FenceOpen;
    FencedCaptureOfLayout(text, prefix, lead, body, trail);
  }

  /** Neither fence starts at `m` when one of its three leading positions holds no backtick. */
  lemma NoFenceAt(s: string, m: nat, k: nat)
    requires k < |Fence| && m + k < |s| && s[m + k] != '`'
    ensures !OccursAt(s, Fence, m) && !OccursAt(s, FenceOpen, m)
  {
    if m + |Fence| <= |s| {
      assert s[m..m + |Fence|][k] == s[m + k];
    }
    if m + |FenceOpen| <= |s| {
      assert s[m..m + |FenceOpen|][k] == s[m + k];
    }
  }

  /** Inline code before the fence does not disturb the capture. */
  lemma FencedCaptureAfterInlineCode()
    ensures FencedCapture(Block("`A` ", " ", "{}", "\n", "")) == Some("{}")
  {
    var text := Block("`A` ", " ", "{}", "\n", "");
    assert text[1] == 'A' && text[3] == ' ' && text[12] == '{' && text[13] == '}';
    forall m | 0 <= m < 4 ensures !OccursAt(text, FenceOpen, m) {
      NoFenceAt(text, m, if m % 2 == 0 then 1 else 0);
    }
    forall m | 12 <= m < 14 ensures !OccursAt(text, Fence, m) {
      NoFenceAt(text, m, 0);
    }
    assert IsWhitespace(' ') && IsWhitespace('\n');
    FencedCaptureOfBlock("`A` ", " ", "{}", "\n", "");
  }

  // ---------------------------------------------------------------------------
  // parseCodeBlock, stage 2: first '{' through last '}'
  // ---------------------------------------------------------------------------

  /**
   * `text.substring(start, end + 1)` for the first '{' and the last '}', when
   * both exist. `substring` swaps its bounds, so when the last '}' comes before
   * the first '{' this is the text strictly between them.
   */
  function LooseCandidate(text: string): (r: Option<string>)
    ensures r.None? <==> '{' !in text || '}' !in text
  {
    var start := IndexOf(text, '{');
    var end := LastIndexOf(text, '}');
    if start != -1 && end != -1 then Some(Substring(text, start, end + 1)) else None
  }

  lemma IndexOfAt(s: string, c: char, k: nat)
    requires k < |s| && s[k] == c && c !in s[..k]
    ensures IndexOf(s, c) == k
  {
  }

  lemma LastIndexOfAt(s: string, c: char, k: nat)
    requires k < |s| && s[k] == c && c !in s[k + 1..]
    ensures LastIndexOf(s, c) == k
  {
  }

  /** The candidate by the positions of the first '{' and the last '}'. */
  lemma LooseCandidateAt(text: string, a: nat, z: nat)
    requires a < |text| && text[a] == '{' && '{' !in text[..a]
    requires z < |text| && text[z] == '}' && '}' !in text[z + 1..]
    ensures a <= z ==> LooseCandidate(text) == Some(text[a..z + 1])
    ensures z < a ==> LooseCandidate(text) == Some(text[z + 1..a])
  {
    IndexOfAt(text, '{', a);
    LastIndexOfAt(text, '}', z);
  }

  /** A braced span is cut out whole, whatever it holds, when no '{' precedes it and no '}' follows it. */
  lemma LooseCandidateOfObject(prefix: string, inner: string, suffix: string)
    requires '{' !in prefix && '}' !in suffix
    ensures LooseCandidate(prefix + "{" + inner + "}" + suffix) == Some("{" + inner + "}")
  {
    var body := "{" + inner + "}";
    var text := prefix + body + suffix;
    assert prefix + "{" + inner + "}" + suffix == text;
    var a := |prefix|;
    var z := a + |body| - 1;
    assert text[..a] == prefix;
    assert text[a] == body[0] == '{';
    assert text[z] == body[|body| - 1] == '}';
    assert text[z + 1..] == suffix;
    LooseCandidateAt(text, a, z);
    assert text[a..z + 1] == body;
  }

  /** When the last '}' precedes the first '{', the candidate is what lies between them. */
  lemma LooseCandidateCrossed(before: string, middle: string, after: string)
    requires '{' !in before && '{' !in middle && '}' !in middle && '}' !in after
    ensures LooseCandidate(before + "}" + middle + "{" + after) == Some(middle)
  {
    var text := before + "}" + middle + "{" + after;
    var z := |before|;
    var a := z + 1 + |middle|;
    assert text[..a] == before + "}" + middle;
    assert text[a] == '{';
    assert text[z] == '}';
    assert text[z + 1..] == middle + "{" + after;
    LooseCandidateAt(text, a, z);
    assert text[z + 1..a] == middle;
  }

  /**
   * parseCodeBlock: the fenced content when it is non-empty and parses, otherwise
   * the brace candidate when there is one and it parses, otherwise null.
   */
  function ParseCodeBlock(text: string, parse: string -> Option<Json>): (r: Json)
    ensures r == JNull
         || (FencedCapture(text).Some? && parse(FencedCapture(text).value) == Some(r))
         || (LooseCandidate(text).Some? && parse(LooseCandidate(text).value) == Some(r))
  {
    var fenced := FencedCapture(text);
    if fenced.Some? && fenced.value != "" && parse(fenced.value).Some? then parse(fenced.value).value
    else
      var loose := LooseCandidate(text);
      if loose.Some? && parse(loose.value).Some? then parse(loose.value).value
      else JNull
  }

  /** A fenced block whose body parses yields that value, whatever follows it. */
  lemma ParseFencedBlock(prefix: string, lead: string, body: string, trail: string, suffix: string,
                         parse: string -> Option<Json>)
    requires AllWhitespace(lead) && AllWhitespace(trail)
    requires body != [] && !IsWhitespace(body[0]) && !IsWhitespace(body[|body| - 1])
    requires forall m :: 0 <= m < |prefix| ==> !OccursAt(Block(prefix, lead, body, trail, suffix), FenceOpen, m)
    requires var c := |prefix| + |FenceOpen| + |lead|;
      forall m :: c <= m < c + |body| ==> !OccursAt(Block(prefix, lead, body, trail, suffix), Fence, m)
    requires parse(body).Some?
    ensures ParseCodeBlock(Block(prefix, lead, body, trail, suffix), parse) == parse(body).value
  {
    FencedCaptureOfBlock(prefix, lead, body, trail, suffix);
  }

  /**
   * When stage 1 yields nothing usable (no match, an empty capture, or a capture
   * that does not parse), the result is decided by the brace candidate alone: its
   * parse when there is one and it parses, and null otherwise. This covers the
   * crossed case, where the candidate is the text between the last '}' and the
   * first '{'.
   */
  lemma FallThrough(text: string, parse: string -> Option<Json>)
    requires var f := FencedCapture(text); f.None? || f.value == "" || parse(f.value).None?
    ensures var l := LooseCandidate(text);
      ParseCodeBlock(text, parse) == if l.Some? && parse(l.value).Some? then parse(l.value).value else JNull
  {
  }

  /** In particular, a braced span that parses is the result. */
  lemma ParseLooseObject(prefix: string, inner: string, suffix: string, parse: string -> Option<Json>)
    requires var f := FencedCapture(prefix + "{" + inner + "}" + suffix);
             f.None? || f.value == "" || parse(f.value).None?
    requires '{' !in prefix && '}' !in suffix
    requires parse("{" + inner + "}").Some?
    ensures ParseCodeBlock(prefix + "{" + inner + "}" + suffix, parse) == parse("{" + inner + "}").value
  {
    LooseCandidateOfObject(prefix, inner, suffix);
    FallThrough(prefix + "{" + inner + "}" + suffix, parse);
  }

  /** Without a usable fenced block and without both braces the result is null. */
  lemma ParseNothing(text: string, parse: string -> Option<Json>)
    requires var f := FencedCapture(text); f.None? || f.value == "" || parse(f.value).None?
    requires '{' !in text || '}' !in text
    ensures ParseCodeBlock(text, parse) == JNull
  {
    FallThrough(text, parse);
  }

  // ---------------------------------------------------------------------------
  // grounding sources: filter, map, then `new Map(sources.map(s => [s.uri, s]))`
  // ---------------------------------------------------------------------------

  datatype WebRef = WebRef(uri: Option<string>, title: Option<string>)
  datatype GroundingChunk = GroundingChunk(web: Option<WebRef>)

  /** `chunk.web?.uri && chunk.web?.title`: both present and non-empty. */
  predicate HasWebSource(c: GroundingChunk) {
    c.web.Some? && c.web.value.uri.Some? && c.web.value.uri.value != ""
    && c.web.value.title.Some? && c.web.value.title.value != ""
  }

  function ToSource(c: GroundingChunk): GroundingSource
    requires HasWebSource(c)
  {
    GroundingSource(c.web.value.title.value, c.web.value.uri.value)
  }

  /** The filter and map: the sources of exactly the chunks that have both a URI and a title. */
  function FilterSources(chunks: seq<GroundingChunk>): (r: seq<GroundingSource>)
    ensures |r| <= |chunks|
    ensures forall i :: 0 <= i < |r| ==> r[i].uri != "" && r[i].title != ""
    ensures forall i :: 0 <= i < |chunks| && HasWebSource(chunks[i]) ==> ToSource(chunks[i]) in r
    ensures forall s :: s in r ==> exists i :: 0 <= i < |chunks| && HasWebSource(chunks[i]) && ToSource(chunks[i]) == s
  {
    if chunks == [] then []
    else
      var rest := FilterSources(chunks[1..]);
      assert forall i :: 1 <= i < |chunks| ==> chunks[i] == chunks[1..][i - 1];
      if HasWebSource(chunks[0]) then [ToSource(chunks[0])] + rest else rest
  }

  /** One chunk gives its source when it has both a URI and a title, and nothing otherwise. */
  lemma FilterSourcesOne(c: GroundingChunk)
    ensures FilterSources([c]) == if HasWebSource(c) then [ToSource(c)] else []
  {
    assert [c][1..] == [];
  }

  /**
   * Filtering distributes over concatenation, so (with FilterSourcesOne) the
   * kept sources come in the chunks' order, one per kept chunk.
   */
  lemma {:induction false} FilterSourcesAppend(a: seq<GroundingChunk>, b: seq<GroundingChunk>)
    ensures FilterSources(a + b) == FilterSources(a) + FilterSources(b)
    decreases |a|
  {
    if a == [] {
      assert a + b == b;
    } else {
      assert (a + b)[0] == a[0];
      assert (a + b)[1..] == a[1..] + b;
      FilterSourcesAppend(a[1..], b);
    }
  }

  /** The set of URIs a list of sources mentions. */
  function Uris(ss: seq<GroundingSource>): set<string> {
    set i | 0 <= i < |ss| :: ss[i].uri
  }

  /** The index of the first source with this URI, or -1. */
  function FirstIndexOfUri(ss: seq<GroundingSource>, uri: string): (k: int)
    ensures -1 <= k < |ss|
    ensures k >= 0 ==> ss[k].uri == uri
    ensures forall m :: 0 <= m < |ss| && (k == -1 || m < k) ==> ss[m].uri != uri
    ensures k >= 0 <==> uri in Uris(ss)
  {
    if ss == [] then -1
    else if ss[0].uri == uri then 0
    else
      var k := FirstIndexOfUri(ss[1..], uri);
      assert forall m :: 1 <= m < |ss| ==> ss[m] == ss[1..][m - 1];
      assert k >= 0 ==> ss[k + 1] == ss[1..][k];
      if k == -1 then -1 else k + 1
  }

  /** The index of the last source with this URI, or -1. */
  function LastIndexOfUri(ss: seq<GroundingSource>, uri: string): (k: int)
    ensures -1 <= k < |ss|
    ensures k >= 0 ==> ss[k].uri == uri
    ensures forall m :: k < m < |ss| && 0 <= m ==> ss[m].uri != uri
  {
    if ss == [] then -1
    else if ss[|ss| - 1].uri == uri then |ss| - 1
    else LastIndexOfUri(ss[..|ss| - 1], uri)
  }

  /** `Map.prototype.set`: an existing key keeps its position and takes the new value; a new key goes last. */
  function MapSet(entries: seq<GroundingSource>, s: GroundingSource): seq<GroundingSource> {
    var k := FirstIndexOfUri(entries, s.uri);
    if k >= 0 then entries[k := s] else entries + [s]
  }

  /** `Array.from(new Map(sources.map(s => [s.uri, s])).values())`. */
  function UniqueSources(sources: seq<GroundingSource>): seq<GroundingSource>
    decreases |sources|
  {
    if sources == [] then []
    else MapSet(UniqueSources(sources[..|sources| - 1]), sources[|sources| - 1])
  }

  lemma UrisSnoc(s: seq<GroundingSource>, x: GroundingSource)
    ensures Uris(s + [x]) == Uris(s) + {x.uri}
  {
    var t := s + [x];
    assert forall i :: 0 <= i < |s| ==> t[i] == s[i];
    assert t[|s|] == x;
  }

  lemma FirstIndexSnocOld(s: seq<GroundingSource>, x: GroundingSource, u: string)
    requires u in Uris(s)
    ensures FirstIndexOfUri(s + [x], u) == FirstIndexOfUri(s, u) >= 0
  {
    var t := s + [x];
    var k := FirstIndexOfUri(s, u);
    assert t[k] == s[k];
    assert forall m :: 0 <= m < k ==> t[m] == s[m];
  }

  lemma FirstIndexSnocNew(s: seq<GroundingSource>, x: GroundingSource)
    requires x.uri !in Uris(s)
    ensures FirstIndexOfUri(s + [x], x.uri) == |s|
  {
    var t := s + [x];
    assert forall m :: 0 <= m < |s| ==> t[m] == s[m];
    assert t[|s|] == x;
  }

  lemma LastIndexSnoc(s: seq<GroundingSource>, x: GroundingSource, u: string)
    ensures LastIndexOfUri(s + [x], u) == if u == x.uri then |s| else LastIndexOfUri(s, u)
  {
    assert (s + [x])[..|s|] == s;
  }

  predicate DistinctUris(r: seq<GroundingSource>) {
    forall a, b :: 0 <= a < b < |r| ==> r[a].uri != r[b].uri
  }

  /** Map.set keeps the URIs distinct and adds the new one. */
  lemma MapSetUris(entries: seq<GroundingSource>, x: GroundingSource)
    requires DistinctUris(entries)
    ensures DistinctUris(MapSet(entries, x))
    ensures Uris(MapSet(entries, x)) == Uris(entries) + {x.uri}
  {
    var k := FirstIndexOfUri(entries, x.uri);
    var r := MapSet(entries, x);
    if k >= 0 {
      assert forall j :: 0 <= j < |r| ==> r[j].uri == entries[j].uri;
    } else {
      UrisSnoc(entries, x);
    }
  }

  /** De-duplication keeps every URI of its input and no other, each once. */
  lemma {:induction false} UniqueSourcesUris(sources: seq<GroundingSource>)
    ensures DistinctUris(UniqueSources(sources))
    ensures Uris(UniqueSources(sources)) == Uris(sources)
    decreases |sources|
  {
    if sources != [] {
      var init := sources[..|sources| - 1];
      var x := sources[|sources| - 1];
      assert sources == init + [x];
      UniqueSourcesUris(init);
      UrisSnoc(init, x);
      MapSetUris(UniqueSources(init), x);
    }
  }

  /** Each de-duplicated entry is the last input entry that carries its URI. */
  lemma {:induction false} UniqueSourcesLastWins(sources: seq<GroundingSource>)
    ensures var r := UniqueSources(sources);
      forall j :: 0 <= j < |r| ==>
        0 <= LastIndexOfUri(sources, r[j].uri) && r[j] == sources[LastIndexOfUri(sources, r[j].uri)]
    decreases |sources|
  {
    if sources != [] {
      var init := sources[..|sources| - 1];
      var x := sources[|sources| - 1];
      assert sources == init + [x];
      var prev := UniqueSources(init);
      UniqueSourcesLastWins(init);
      UniqueSourcesUris(init);
      var r := UniqueSources(sources);
      var k := FirstIndexOfUri(prev, x.uri);
      forall j | 0 <= j < |r|
        ensures 0 <= LastIndexOfUri(sources, r[j].uri) && r[j] == sources[LastIndexOfUri(sources, r[j].uri)]
      {
        LastIndexSnoc(init, x, r[j].uri);
        if j == if k >= 0 then k else |prev| {
          assert r[j] == x;
        } else {
          assert j < |prev| && r[j] == prev[j];
          assert prev[j].uri != x.uri;
        }
      }
    }
  }

  predicate OrderedByFirstOccurrence(r: seq<GroundingSource>, sources: seq<GroundingSource>) {
    forall a, b :: 0 <= a < b < |r| ==> FirstIndexOfUri(sources, r[a].uri) < FirstIndexOfUri(sources, r[b].uri)
  }

  /** Appending a source keeps the first occurrence of every URI already seen. */
  lemma FirstIndicesKept(init: seq<GroundingSource>, x: GroundingSource, prev: seq<GroundingSource>)
    requires Uris(prev) == Uris(init)
    ensures forall j :: 0 <= j < |prev| ==>
      FirstIndexOfUri(init + [x], prev[j].uri) == FirstIndexOfUri(init, prev[j].uri) < |init|
  {
    forall j | 0 <= j < |prev|
      ensures FirstIndexOfUri(init + [x], prev[j].uri) == FirstIndexOfUri(init, prev[j].uri) < |init|
    {
      assert prev[j].uri in Uris(prev);
      FirstIndexSnocOld(init, x, prev[j].uri);
    }
  }

  /** One Map.set step keeps the entries ordered by first occurrence. */
  lemma MapSetOrdered(init: seq<GroundingSource>, x: GroundingSource, prev: seq<GroundingSource>)
    requires Uris(prev) == Uris(init) && OrderedByFirstOccurrence(prev, init)
    ensures OrderedByFirstOccurrence(MapSet(prev, x), init + [x])
  {
    FirstIndicesKept(init, x, prev);
    var r := MapSet(prev, x);
    if FirstIndexOfUri(prev, x.uri) >= 0 {
      SameUrisOrdered(prev, r, init + [x]);
    } else {
      FirstIndexSnocNew(init, x);
      AppendOrdered(prev, x, init + [x]);
    }
  }

  lemma SameUrisOrdered(prev: seq<GroundingSource>, r: seq<GroundingSource>, sources: seq<GroundingSource>)
    requires |r| == |prev| && forall j :: 0 <= j < |r| ==> r[j].uri == prev[j].uri
    requires OrderedByFirstOccurrence(prev, sources)
    ensures OrderedByFirstOccurrence(r, sources)
  {
  }

  lemma AppendOrdered(prev: seq<GroundingSource>, x: GroundingSource, sources: seq<GroundingSource>)
    requires OrderedByFirstOccurrence(prev, sources)
    requires forall j :: 0 <= j < |prev| ==> FirstIndexOfUri(sources, prev[j].uri) < FirstIndexOfUri(sources, x.uri)
    ensures OrderedByFirstOccurrence(prev + [x], sources)
  {
    var r := prev + [x];
    assert forall j :: 0 <= j < |prev| ==> r[j] == prev[j];
  }

  /** The de-duplicated entries come in the order their URIs first occur in the input. */
  lemma {:induction false} UniqueSourcesFirstOrder(sources: seq<GroundingSource>)
    ensures var r := UniqueSources(sources);
      forall a, b :: 0 <= a < b < |r| ==> FirstIndexOfUri(sources, r[a].uri) < FirstIndexOfUri(sources, r[b].uri)
    decreases |sources|
  {
    if sources != [] {
      var init := sources[..|sources| - 1];
      var x := sources[|sources| - 1];
      assert sources == init + [x];
      UniqueSourcesFirstOrder(init);
      UniqueSourcesUris(init);
      MapSetOrdered(init, x, UniqueSources(init));
    }
  }

  /** The code keeps the last entry per URI: [{t1,u1},{t2,u1},{t3,u2}] gives [{t2,u1},{t3,u2}]. */
  lemma UniqueSourcesExample()
    ensures UniqueSources([GroundingSource("t1", "u1"), GroundingSource("t2", "u1"), GroundingSource("t3", "u2")])
         == [GroundingSource("t2", "u1"), GroundingSource("t3", "u2")]
  {
    var s1, s2, s3 := GroundingSource("t1", "u1"), GroundingSource("t2", "u1"), GroundingSource("t3", "u2");
    assert [s1, s2, s3][..2] == [s1, s2];
    assert [s1, s2][..1] == [s1];
    assert [s1][..0] == [];
    assert UniqueSources([s1]) == [s1];
    assert FirstIndexOfUri([s1], "u1") == 0;
    assert UniqueSources([s1, s2]) == [s2];
    assert FirstIndexOfUri([s2], "u2") == -1;
  }

  // ---------------------------------------------------------------------------
  // the StockData coercion and fetchStockData
  // ---------------------------------------------------------------------------

  /** `parsedData.currency || "USD"` for a string currency. */
  function CurrencyOf(v: Option<Json>): (r: string)
    ensures r != ""
    ensures v.Some? && v.value.JStr? && v.value.s != "" ==> r == v.value.s
    ensures !(v.Some? && Truthy(v.value)) ==> r == "USD"
  {
    if v.Some? && v.value.JStr? && v.value.s != "" then v.value.s else "USD"
  }

  /** The record built from a truthy parsed payload; the ticker is the caller's, upper-cased. */
  function CoerceStockData(ticker: string, parsed: Json, lib: Library): (r: StockData)
    ensures r.ticker == ToUpperCase(ticker)
    ensures r.beta != 0.0 && r.riskFreeRate != 0.0 && r.marketRiskPremium != 0.0
    ensures r.currency != ""
  {
    StockData(
      ticker := ToUpperCase(ticker),
      price := OrDefault(ToNumber(Field(parsed, "price"), lib), 0.0),
      fcfPerShare := OrDefault(ToNumber(Field(parsed, "fcfPerShare"), lib), 0.0),
      beta := OrDefault(ToNumber(Field(parsed, "beta"), lib), 1.0),
      riskFreeRate := OrDefault(ToNumber(Field(parsed, "riskFreeRate"), lib), 0.04),
      marketRiskPremium := OrDefault(ToNumber(Field(parsed, "marketRiskPremium"), lib), 0.05),
      currency := CurrencyOf(Field(parsed, "currency")))
  }

  /**
   * Each numeric field is its default exactly when `Number(...)` of the payload's
   * value is NaN (missing or unparsable), zero, or the default itself; otherwise
   * it is that number.
   */
  lemma CoercedFields(ticker: string, parsed: Json, lib: Library)
    ensures var r := CoerceStockData(ticker, parsed, lib);
      var n := ToNumber(Field(parsed, "price"), lib);
      (r.price == 0.0 <==> n.None? || n.value == 0.0) && (r.price != 0.0 ==> n == Some(r.price))
    ensures var r := CoerceStockData(ticker, parsed, lib);
      var n := ToNumber(Field(parsed, "fcfPerShare"), lib);
      (r.fcfPerShare == 0.0 <==> n.None? || n.value == 0.0) && (r.fcfPerShare != 0.0 ==> n == Some(r.fcfPerShare))
    ensures var r := CoerceStockData(ticker, parsed, lib);
      var n := ToNumber(Field(parsed, "beta"), lib);
      (r.beta == 1.0 <==> n.None? || n.value == 0.0 || n.value == 1.0) && (r.beta != 1.0 ==> n == Some(r.beta))
    ensures var r := CoerceStockData(ticker, parsed, lib);
      var n := ToNumber(Field(parsed, "riskFreeRate"), lib);
      (r.riskFreeRate == 0.04 <==> n.None? || n.value == 0.0 || n.value == 0.04)
      && (r.riskFreeRate != 0.04 ==> n == Some(r.riskFreeRate))
    ensures var r := CoerceStockData(ticker, parsed, lib);
      var n := ToNumber(Field(parsed, "marketRiskPremium"), lib);
      (r.marketRiskPremium == 0.05 <==> n.None? || n.value == 0.0 || n.value == 0.05)
      && (r.marketRiskPremium != 0.05 ==> n == Some(r.marketRiskPremium))
  {
  }

  /** Because `||` tests falsiness, a beta of exactly 0 becomes 1. */
  lemma ZeroBetaBecomesOne(ticker: string, parsed: Json, lib: Library)
    requires Field(parsed, "beta") == Some(JNum(0.0))
    ensures CoerceStockData(ticker, parsed, lib).beta == 1.0
  {
  }

  /** An unparsable price string, `"abc"` say, gives the default price 0, not an error. */
  lemma UnparsablePriceBecomesZero(ticker: string, parsed: Json, lib: Library)
    requires Field(parsed, "price").Some? && Field(parsed, "price").value.JStr?
    requires lib.stringToNumber(Field(parsed, "price").value.s).None?
    ensures CoerceStockData(ticker, parsed, lib).price == 0.0
  {
  }

  /** A thrown JavaScript value: its `message` ("" when it has none) and its JSON.stringify text. */
  datatype JsError = JsError(message: string, serialized: string)

  /** What the awaited `generateContent` produced. */
  datatype ModelResponse = ModelResponse(text: Option<string>, groundingChunks: Option<seq<GroundingChunk>>)

  /** The awaited call either answers or throws. */
  datatype Reply = Answered(response: ModelResponse) | Failed(error: JsError)

  /** The settled promise of fetchStockData. */
  datatype FetchOutcome = Resolved(result: SearchResult) | Rejected(error: JsError)

  // Long messages are written as concatenations of short literals, which the
  // verifier can inspect character by character.
  const MissingKeyMessage: string :=
    "API Key is missing. " + "Please configure the API_KEY " + "environment variable."

  /** The missing-key message names the "API Key". */
  lemma MissingKeyMentionsApiKey()
    ensures Includes(MissingKeyMessage, "API Key")
  {
    assert ("API Key is missing. " + "Please configure the API_KEY " + "environment variable.")[..7] == "API Key";
  }

  /**
   * fetchStockData. A missing or empty key throws before any request is made. A
   * thrown request is rethrown. An answer gives the de-duplicated sources and
   * the raw text in any case, and the coerced data only when the extracted JSON
   * is truthy.
   */
  function FetchStockData(ticker: string, apiKey: Option<string>, reply: Reply, lib: Library): (r: FetchOutcome)
    ensures apiKey.None? || apiKey.value == "" ==> r.Rejected? && Includes(r.error.message, "API Key")
    ensures apiKey.Some? && apiKey.value != "" && reply.Failed? ==> r == Rejected(reply.error)
    ensures apiKey.Some? && apiKey.value != "" && reply.Answered? ==> r.Resolved?
  {
    if apiKey.None? || apiKey.value == "" then
      MissingKeyMentionsApiKey();
      Rejected(JsError(MissingKeyMessage, "{}"))
    else
      match reply
      case Failed(e) => Rejected(e)
      case Answered(response) =>
        var text := response.text.GetOr("");
        var parsedData := ParseCodeBlock(text, lib.jsonParse);
        var sources := FilterSources(response.groundingChunks.GetOr([]));
        var uniqueSources := UniqueSources(sources);
        var stockData := if Truthy(parsedData) then Some(CoerceStockData(ticker, parsedData, lib)) else None;
        Resolved(SearchResult(stockData, uniqueSources, Some(text)))
  }

  /**
   * An answer resolves with the raw text (or ""), the de-duplicated sources,
   * and data exactly when the extracted JSON is truthy: the coercion of that JSON.
   */
  lemma FetchAnswered(ticker: string, key: string, response: ModelResponse, lib: Library)
    requires key != ""
    ensures var r := FetchStockData(ticker, Some(key), Answered(response), lib);
      var text := response.text.GetOr("");
      && r.Resolved?
      && r.result.rawText == Some(text)
      && r.result.sources == UniqueSources(FilterSources(response.groundingChunks.GetOr([])))
      && (r.result.data.Some? <==> Truthy(ParseCodeBlock(text, lib.jsonParse)))
      && (r.result.data.Some? ==> r.result.data.value == CoerceStockData(ticker, ParseCodeBlock(text, lib.jsonParse), lib))
  {
  }

  /** A reply whose text yields no JSON still returns its sources and its raw text, with null data. */
  lemma NoDataStillReturnsSources(ticker: string, key: string, response: ModelResponse, lib: Library)
    requires key != ""
    requires !Truthy(ParseCodeBlock(response.text.GetOr(""), lib.jsonParse))
    ensures var r := FetchStockData(ticker, Some(key), Answered(response), lib);
      r.Resolved? && r.result.data.None?
      && r.result.rawText == Some(response.text.GetOr(""))
      && Uris(r.result.sources) == Uris(FilterSources(response.groundingChunks.GetOr([])))
  {
    FetchAnswered(ticker, key, response, lib);
    UniqueSourcesUris(FilterSources(response.groundingChunks.GetOr([])));
  }
}
