/**
 * Link annotation of a task's text, as the task list's row adapter does it
 * (MainActivity.java:199-205): every match of the web-URL pattern becomes a
 * clickable span over the matched characters, whose target is the matched
 * text with "http://" put in front unless it already starts with "http://"
 * or "https://". The pattern itself belongs to the platform; its matches
 * are an input here.
 */
module Links {

  /** One match of the web-URL pattern: the half-open range [start, end). */
  datatype Match = Match(start: nat, end: nat)

  /** A URL span: the range it covers and the link target it opens. */
  datatype LinkSpan = LinkSpan(start: nat, end: nat, url: string)

  /** The rendered row: the unchanged text and the spans set on it, in order. */
  datatype Spannable = Spannable(text: string, spans: seq<LinkSpan>)

  predicate StartsWith(s: string, prefix: string)
  {
    |prefix| <= |s| && s[..|prefix|] == prefix
  }

  predicate HasScheme(url: string)
  {
    StartsWith(url, "http://") || StartsWith(url, "https://")
  }

  /** What a matcher scanning left to right yields: ranges inside the text,
      each ending no later than the next one starts. */
  predicate MatchesOf(text: string, matches: seq<Match>)
  {
    && (forall i :: 0 <= i < |matches| ==> matches[i].start <= matches[i].end <= |text|)
    && (forall i :: 0 <= i < |matches| - 1 ==> matches[i].end <= matches[i + 1].start)
  }

  /** The link target for a matched URL. */
  function Normalize(url: string): (r: string)
    ensures HasScheme(r)
    ensures |r| == |url| || |r| == |url| + |"http://"|
    ensures r[|r| - |url|..] == url
  {
    if !StartsWith(url, "http://") && !StartsWith(url, "https://") then "http://" + url else url
  }

  /** Normalisation leaves exactly the already-schemed URLs alone. */
  lemma NormalizeFixedPoints(url: string)
    ensures Normalize(url) == url <==> HasScheme(url)
  {
  }

  /** Normalising twice is normalising once. */
  lemma NormalizeIdempotent(url: string)
    ensures Normalize(Normalize(url)) == Normalize(url)
  {
  }

  /** A bare domain gets the "http://" prefix; schemed URLs stay as they are. */
  lemma NormalizeExamples()
    ensures Normalize("example.com") == "http://example.com"
    ensures Normalize("https://a.com") == "https://a.com"
    ensures Normalize("http://b.com") == "http://b.com"
  {
    assert !StartsWith("example.com", "http://");
    assert !StartsWith("example.com", "https://");
    assert StartsWith("https://a.com", "https://");
    assert StartsWith("http://b.com", "http://");
  }

  /** The span loop of the row adapter. */
  method Render(task: string, matches: seq<Match>) returns (r: Spannable)
    requires MatchesOf(task, matches)
    ensures r.text == task
    ensures |r.spans| == |matches|
    ensures forall i :: 0 <= i < |matches| ==>
      && r.spans[i].start == matches[i].start
      && r.spans[i].end == matches[i].end
      && r.spans[i].url == Normalize(task[matches[i].start..matches[i].end])
    ensures forall i :: 0 <= i < |r.spans| ==> HasScheme(r.spans[i].url)
    ensures forall i :: 0 <= i < |r.spans| - 1 ==> r.spans[i].end <= r.spans[i + 1].start
  {
    var spans: seq<LinkSpan> := [];
    var k := 0;
    while k < |matches|
      invariant 0 <= k <= |matches|
      invariant |spans| == k
      invariant forall i :: 0 <= i < k ==>
        && spans[i].start == matches[i].start
        && spans[i].end == matches[i].end
        && spans[i].url == Normalize(task[matches[i].start..matches[i].end])
    {
      var m := matches[k];
      var url := task[m.start..m.end];
      if !StartsWith(url, "http://") && !StartsWith(url, "https://") {
        url := "http://" + url;
      }
      spans := spans + [LinkSpan(m.start, m.end, url)];
      k := k + 1;
    }
    r := Spannable(task, spans);
  }

  /** A row with a bare domain. */
  method RenderExample()
  {
    var r := Render("visit example.com now", [Match(6, 17)]);
    assert "visit example.com now"[6..17] == "example.com";
    NormalizeExamples();
    assert r.spans == [LinkSpan(6, 17, "http://example.com")];
  }

  /** A row with two URLs that already carry a scheme. */
  method RenderSchemedExample()
  {
    var a, b := "https://a.com", "http://b.com";
    var t := "go to " + a + " and " + b;
    NormalizeExamples();
    assert t[6..19] == a;
    assert t[24..36] == b;
    var r2 := Render(t, [Match(6, 19), Match(24, 36)]);
    assert r2.spans == [LinkSpan(6, 19, "https://a.com"), LinkSpan(24, 36, "http://b.com")];
  }
}
