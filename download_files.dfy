/**
 * download_files.js: read the secure download page, pull the file names out of its
 * `href="download_secure/…"` links with a global regular expression, pick one of them at
 * random and fetch it from the base URL followed by `/` and the name encoded with
 * `encodeURIComponent`. The page body and the value of `Math.random()` are parameters.
 */
module DownloadFiles {
  import opened JsText
  import opened Wrappers
  import Seqs
  import UriComponent

  /** `config.url`. */
  const BaseUrl := "https://the-internet.herokuapp.com/download_secure"

  /** The literal part of `/href="download_secure\/([^"]+)"/g` before the capture group. */
  const Prefix := "href=\"download_secure/"

  // ---------------------------------------------------------------------------
  // The regular expression
  // ---------------------------------------------------------------------------

  /** The first `"` at or after index i, or |s| when there is none: where `[^"]+` stops. */
  function QuoteFrom(s: string, i: nat): (q: nat)
    requires i <= |s|
    ensures i <= q <= |s|
    decreases |s| - i
  {
    if i == |s| || s[i] == '"' then i else QuoteFrom(s, i + 1)
  }

  /** `QuoteFrom` finds the first quote: none before it, and a quote there unless the text ended. */
  lemma {:induction false} QuoteFromIsFirst(s: string, i: nat)
    requires i <= |s|
    ensures forall k | i <= k < QuoteFrom(s, i) :: s[k] != '"'
    ensures QuoteFrom(s, i) < |s| ==> s[QuoteFrom(s, i)] == '"'
    decreases |s| - i
  {
    if i < |s| && s[i] != '"' {
      QuoteFromIsFirst(s, i + 1);
    }
  }

  /** A run of non-quotes from i closed by a quote at q ends where `QuoteFrom` says. */
  lemma QuoteFromAt(s: string, i: nat, q: nat)
    requires i <= q < |s| && s[q] == '"'
    requires forall k | i <= k < q :: s[k] != '"'
    ensures QuoteFrom(s, i) == q
  {
    QuoteFromIsFirst(s, i);
  }

  /**
   * The expression matches at p: the prefix is there, a non-empty run of non-quotes follows
   * it and a quote closes that run. The greedy `[^"]+` can only stop at the first quote, so
   * no other way of matching exists at p.
   */
  predicate MatchAt(s: string, p: nat)
  {
    OccursAt(s, Prefix, p) &&
    var q := QuoteFrom(s, p + |Prefix|);
    p + |Prefix| < q < |s|
  }

  /** `match[1]`: the captured file name, for a match at p (empty when the text ends before the name could start). */
  function Capture(s: string, p: nat): string
  {
    if p + |Prefix| <= |s| then s[p + |Prefix|..QuoteFrom(s, p + |Prefix|)] else ""
  }

  /** Where the match at p ends, just past its closing quote: the next search starts there. */
  function MatchEnd(s: string, p: nat): nat
  {
    if p + |Prefix| <= |s| then QuoteFrom(s, p + |Prefix|) + 1 else p + 1
  }

  /**
   * The start of every match `matchAll` finds from index `from` on: the expression is tried
   * at each index in turn, and after a match the search resumes where it ended.
   */
  function Scan(s: string, from: nat): seq<nat>
    requires from <= |s|
    decreases |s| - from
  {
    if from == |s| then []
    else if MatchAt(s, from) then [from] + Scan(s, MatchEnd(s, from))
    else Scan(s, from + 1)
  }

  /** Every index the scan reports starts a match, at or after where the scan began. */
  lemma {:induction false} ScanMatches(s: string, from: nat)
    requires from <= |s|
    ensures forall k | 0 <= k < |Scan(s, from)| :: from <= Scan(s, from)[k] && MatchAt(s, Scan(s, from)[k])
    decreases |s| - from
  {
    if from < |s| {
      if MatchAt(s, from) {
        ScanMatches(s, MatchEnd(s, from));
        assert Scan(s, from) == [from] + Scan(s, MatchEnd(s, from));
      } else {
        ScanMatches(s, from + 1);
      }
    }
  }

  /** The names captured by the matches at the given starts: `.map(match => match[1])`. */
  function Captures(s: string, starts: seq<nat>): (names: seq<string>)
    ensures |names| == |starts|
    decreases |starts|
  {
    if starts == [] then [] else [Capture(s, starts[0])] + Captures(s, starts[1..])
  }

  /** The k-th name is the capture of the k-th match. */
  lemma {:induction false} CapturesAt(s: string, starts: seq<nat>, k: nat)
    requires k < |starts|
    ensures Captures(s, starts)[k] == Capture(s, starts[k])
    decreases k
  {
    if k > 0 {
      CapturesAt(s, starts[1..], k - 1);
    }
  }

  /** The names at a first start and then at further ones. */
  lemma CapturesCons(s: string, p: nat, starts: seq<nat>)
    ensures Captures(s, [p] + starts) == [Capture(s, p)] + Captures(s, starts)
  {
    assert ([p] + starts)[1..] == starts;
  }

  /** `[...html.matchAll(…)].map(match => match[1])`. */
  function FileNames(html: string): seq<string>
  {
    Captures(html, Scan(html, 0))
  }

  /** The text of one link as the page writes it. */
  function Link(name: string): string
  {
    Prefix + name + "\""
  }

  /** A page made of nothing but the links to the given names, in order. */
  function Links(names: seq<string>): string
    decreases |names|
  {
    if names == [] then "" else Link(names[0]) + Links(names[1..])
  }

  /** A name the page can link to: non-empty and without a quote. */
  predicate Linkable(name: string)
  {
    name != [] && '"' !in name
  }

  // ---------------------------------------------------------------------------
  // What the extraction finds
  // ---------------------------------------------------------------------------

  /** Each match is the page's text `href="download_secure/<name>"` at its start, for its captured name. */
  lemma MatchIsLink(s: string, p: nat)
    requires MatchAt(s, p)
    ensures Linkable(Capture(s, p))
    ensures OccursAt(s, Link(Capture(s, p)), p)
    ensures MatchEnd(s, p) == p + |Link(Capture(s, p))|
  {
    var m := p + |Prefix|;
    var q := QuoteFrom(s, m);
    var name := Capture(s, p);
    assert name == s[m..q];
    CaptureLinkable(s, p);
    QuoteFromIsFirst(s, m);
    Seqs.SliceSplit(s, p, m, q);
    Seqs.SliceSplit(s, p, q, q + 1);
    assert s[q..q + 1] == "\"";
  }

  /** The captured name is non-empty and holds no quote. */
  lemma CaptureLinkable(s: string, p: nat)
    requires MatchAt(s, p)
    ensures Linkable(Capture(s, p))
  {
    var m := p + |Prefix|;
    var name := Capture(s, p);
    QuoteFromIsFirst(s, m);
    assert name[0] == s[m];
    assert forall i | 0 <= i < |name| :: name[i] == s[m + i];
  }

  /** The matches found do not overlap and come in the order they appear in s. */
  lemma {:induction false} ScanOrdered(s: string, from: nat)
    requires from <= |s|
    ensures forall i, j | 0 <= i < j < |Scan(s, from)| :: MatchEnd(s, Scan(s, from)[i]) <= Scan(s, from)[j]
    decreases |s| - from
  {
    if from < |s| {
      if MatchAt(s, from) {
        ScanOrdered(s, MatchEnd(s, from));
        ScanMatches(s, MatchEnd(s, from));
        ScanOrderedAtMatch(s, from, Scan(s, MatchEnd(s, from)));
      } else {
        ScanOrdered(s, from + 1);
        assert Scan(s, from) == Scan(s, from + 1);
      }
    }
  }

  /** The step of ScanOrdered at a match: the later matches start after it ends. */
  lemma ScanOrderedAtMatch(s: string, from: nat, rest: seq<nat>)
    requires from < |s| && MatchAt(s, from) && rest == Scan(s, MatchEnd(s, from))
    requires forall k | 0 <= k < |rest| :: MatchEnd(s, from) <= rest[k]
    requires forall i, j | 0 <= i < j < |rest| :: MatchEnd(s, rest[i]) <= rest[j]
    ensures forall i, j | 0 <= i < j < |Scan(s, from)| :: MatchEnd(s, Scan(s, from)[i]) <= Scan(s, from)[j]
  {
    var r := [from] + rest;
    assert Scan(s, from) == r;
    forall i, j | 0 <= i < j < |r| ensures MatchEnd(s, r[i]) <= r[j] {
      assert r[j] == rest[j - 1];
      if i > 0 {
        assert r[i] == rest[i - 1];
      }
    }
  }

  /**
   * Every extracted name is non-empty, holds no quote and is linked on the page at the start
   * of its match; the links are in the page's order and do not overlap.
   */
  lemma {:induction false} NamesAreLinks(html: string)
    ensures var names, starts := FileNames(html), Scan(html, 0);
      |names| == |starts| &&
      (forall k | 0 <= k < |names| :: Linkable(names[k]) && OccursAt(html, Link(names[k]), starts[k])) &&
      (forall i, j | 0 <= i < j < |names| :: starts[i] + |Link(names[i])| <= starts[j])
  {
    var names, starts := FileNames(html), Scan(html, 0);
    ScanOrdered(html, 0);
    ScanMatches(html, 0);
    forall k | 0 <= k < |names|
      ensures Linkable(names[k]) && OccursAt(html, Link(names[k]), starts[k])
      ensures MatchEnd(html, starts[k]) == starts[k] + |Link(names[k])|
    {
      CapturesAt(html, starts, k);
      MatchIsLink(html, starts[k]);
    }
  }

  /** No match starts at an index in [lo, hi). */
  ghost predicate NoMatchIn(s: string, lo: nat, hi: nat)
  {
    forall p: nat | lo <= p < hi :: !MatchAt(s, p)
  }

  /**
   * The scan finds the leftmost match at or after `from`: nothing is found exactly when no
   * match starts at or after `from`, and no match is skipped before the first one found.
   */
  lemma {:induction false} ScanFindsFirst(s: string, from: nat)
    requires from <= |s|
    ensures Scan(s, from) == [] <==> NoMatchIn(s, from, |s|)
    ensures Scan(s, from) != [] ==> NoMatchIn(s, from, Scan(s, from)[0])
    decreases |s| - from
  {
    if from < |s| && !MatchAt(s, from) {
      ScanFindsFirst(s, from + 1);
    }
  }

  /** After each match the scan finds the leftmost one at or after its end: no match is skipped between two found ones. */
  lemma {:induction false} ScanSkipsNothing(s: string, from: nat)
    requires from <= |s|
    ensures var r := Scan(s, from);
      forall k | 0 <= k < |r| - 1 :: NoMatchIn(s, MatchEnd(s, r[k]), r[k + 1])
    decreases |s| - from
  {
    var r := Scan(s, from);
    if from < |s| {
      if MatchAt(s, from) {
        var rest := Scan(s, MatchEnd(s, from));
        ScanSkipsNothing(s, MatchEnd(s, from));
        ScanFindsFirst(s, MatchEnd(s, from));
        assert r == [from] + rest;
        forall k | 0 <= k < |r| - 1
          ensures NoMatchIn(s, MatchEnd(s, r[k]), r[k + 1])
        {
          if k > 0 {
            assert r[k] == rest[k - 1] && r[k + 1] == rest[k];
          }
        }
      } else {
        ScanSkipsNothing(s, from + 1);
        assert Scan(s, from) == Scan(s, from + 1);
      }
    }
  }

  /** No match starts after the last one the scan finds. */
  lemma {:induction false} ScanAfterLast(s: string, from: nat)
    requires from <= |s| && Scan(s, from) != []
    ensures NoMatchIn(s, MatchEnd(s, Scan(s, from)[|Scan(s, from)| - 1]), |s|)
    decreases |s| - from
  {
    var r := Scan(s, from);
    if MatchAt(s, from) {
      var next := MatchEnd(s, from);
      var rest := Scan(s, next);
      assert r == [from] + rest;
      if rest == [] {
        ScanFindsFirst(s, next);
      } else {
        ScanAfterLast(s, next);
        assert r[|r| - 1] == rest[|rest| - 1];
      }
    } else {
      ScanAfterLast(s, from + 1);
    }
  }

  /** Nothing is extracted exactly when no link to a name starts anywhere on the page. */
  lemma NoNamesNoLinks(html: string)
    ensures FileNames(html) == [] <==> NoMatchIn(html, 0, |html|)
  {
    ScanFindsFirst(html, 0);
  }

  // ---------------------------------------------------------------------------
  // Round trip: a page of links gives back its names
  // ---------------------------------------------------------------------------

  /** Looking for the closing quote in a + b past a is looking for it in b. */
  lemma {:induction false} QuoteFromShift(a: string, b: string, i: nat)
    requires i <= |b|
    ensures QuoteFrom(a + b, |a| + i) == |a| + QuoteFrom(b, i)
    decreases |b| - i
  {
    if i < |b| {
      assert (a + b)[|a| + i] == b[i];
      if b[i] != '"' {
        QuoteFromShift(a, b, i + 1);
      }
    }
  }

  /** The capture at a position past a, in a + b, is the capture at that position of b. */
  lemma CaptureShift(a: string, b: string, p: nat)
    ensures Capture(a + b, |a| + p) == Capture(b, p)
  {
    var s := a + b;
    if p + |Prefix| <= |b| {
      QuoteFromShift(a, b, p + |Prefix|);
      assert s[|a| + p + |Prefix|..|a| + QuoteFrom(b, p + |Prefix|)] == b[p + |Prefix|..QuoteFrom(b, p + |Prefix|)];
    }
  }

  /** The expression only looks forward: a match in b is a match in a + b, and ends |a| later. */
  lemma MatchShift(a: string, b: string, p: nat)
    requires p <= |b|
    ensures MatchAt(a + b, |a| + p) <==> MatchAt(b, p)
    ensures MatchAt(b, p) ==> MatchEnd(a + b, |a| + p) == |a| + MatchEnd(b, p)
  {
    var s := a + b;
    if p + |Prefix| <= |b| {
      assert s[|a| + p..|a| + p + |Prefix|] == b[p..p + |Prefix|];
      QuoteFromShift(a, b, p + |Prefix|);
    }
  }

  /** The positions moved d places on. */
  function Shifted(starts: seq<nat>, d: nat): seq<nat>
    decreases |starts|
  {
    if starts == [] then [] else [starts[0] + d] + Shifted(starts[1..], d)
  }

  /** Scanning a + b past a finds the matches of b, moved by |a|. */
  lemma {:induction false} ScanShift(a: string, b: string, k: nat)
    requires k <= |b|
    ensures Scan(a + b, |a| + k) == Shifted(Scan(b, k), |a|)
    decreases |b| - k
  {
    if k < |b| {
      MatchShift(a, b, k);
      if MatchAt(b, k) {
        ScanShift(a, b, MatchEnd(b, k));
        ScanShiftAtMatch(a, b, k);
      } else {
        ScanShift(a, b, k + 1);
        ScanShiftPastNonMatch(a, b, k);
      }
    } else {
      assert |a| + k == |a + b|;
    }
  }

  /** The step of ScanShift at a match of b. */
  lemma ScanShiftAtMatch(a: string, b: string, k: nat)
    requires k < |b| && MatchAt(b, k)
    requires Scan(a + b, |a| + MatchEnd(b, k)) == Shifted(Scan(b, MatchEnd(b, k)), |a|)
    ensures Scan(a + b, |a| + k) == Shifted(Scan(b, k), |a|)
  {
    var e := MatchEnd(b, k);
    MatchShift(a, b, k);
    assert Scan(a + b, |a| + k) == [|a| + k] + Scan(a + b, |a| + e);
    assert Scan(b, k) == [k] + Scan(b, e);
    ShiftedCons(k, Scan(b, e), |a|);
  }

  /** The step of ScanShift past a position of b where no match starts. */
  lemma ScanShiftPastNonMatch(a: string, b: string, k: nat)
    requires k < |b| && !MatchAt(b, k)
    requires Scan(a + b, |a| + (k + 1)) == Shifted(Scan(b, k + 1), |a|)
    ensures Scan(a + b, |a| + k) == Shifted(Scan(b, k), |a|)
  {
    MatchShift(a, b, k);
    assert Scan(a + b, |a| + k) == Scan(a + b, |a| + (k + 1));
    assert Scan(b, k) == Scan(b, k + 1);
  }

  /** Moving a sequence with a first element moves that element and then the rest. */
  lemma ShiftedCons(x: nat, xs: seq<nat>, d: nat)
    ensures Shifted([x] + xs, d) == [x + d] + Shifted(xs, d)
  {
    assert ([x] + xs)[1..] == xs;
  }

  /** Capturing in a + b at the starts of b moved by |a| captures what b does. */
  lemma {:induction false} CapturesShift(a: string, b: string, starts: seq<nat>)
    ensures Captures(a + b, Shifted(starts, |a|)) == Captures(b, starts)
    decreases |starts|
  {
    if starts != [] {
      CaptureShift(a, b, starts[0]);
      CapturesShift(a, b, starts[1..]);
      ShiftedCons(starts[0], starts[1..], |a|);
      assert [starts[0]] + starts[1..] == starts;
      CapturesCons(a + b, starts[0] + |a|, Shifted(starts[1..], |a|));
    }
  }

  /** A page whose scan finds 0 and then resumes at |a| gives the name at 0, then the names of b. */
  lemma FirstMatchThenRest(a: string, b: string)
    requires Scan(a + b, 0) == [0] + Scan(a + b, |a|)
    ensures FileNames(a + b) == [Capture(a + b, 0)] + FileNames(b)
  {
    var s := a + b;
    var moved := Scan(s, |a|);
    ScanShift(a, b, 0);
    CapturesShift(a, b, Scan(b, 0));
    assert ([0] + moved)[1..] == moved;
  }

  /** A link at the start of a page is a match there, capturing its name, and the scan goes on after it. */
  lemma LinkMatches(name: string, rest: string)
    requires Linkable(name)
    ensures Scan(Link(name) + rest, 0) == [0] + Scan(Link(name) + rest, |Link(name)|)
    ensures Capture(Link(name) + rest, 0) == name
  {
    var s := Link(name) + rest;
    assert s == Prefix + (name + "\"" + rest);
    assert s[..|Prefix|] == Prefix;
    assert s[|Prefix| + |name|] == '"';
    assert forall k | |Prefix| <= k < |Prefix| + |name| :: s[k] == name[k - |Prefix|];
    QuoteFromAt(s, |Prefix|, |Prefix| + |name|);
    assert MatchAt(s, 0) && MatchEnd(s, 0) == |Link(name)|;
  }

  /** A page that starts with a link gives that link's name first, then the names of the rest. */
  lemma LinkFirst(name: string, rest: string)
    requires Linkable(name)
    ensures FileNames(Link(name) + rest) == [name] + FileNames(rest)
  {
    LinkMatches(name, rest);
    FirstMatchThenRest(Link(name), rest);
  }

  /** `matchAll` recovers every name of a page of links, in order. */
  lemma {:induction false} LinksRoundTrip(names: seq<string>)
    requires forall k | 0 <= k < |names| :: Linkable(names[k])
    ensures FileNames(Links(names)) == names
    decreases |names|
  {
    if names == [] {
      assert Scan("", 0) == [];
    } else {
      LinksRoundTrip(names[1..]);
      LinkFirst(names[0], Links(names[1..]));
      assert [names[0]] + names[1..] == names;
    }
  }

  // ---------------------------------------------------------------------------
  // Choosing and fetching one file
  // ---------------------------------------------------------------------------

  /** `Math.floor(Math.random() * n)` for the value x that `Math.random()` returned. */
  function Pick(x: real, n: nat): (i: nat)
    requires 0.0 <= x < 1.0 && n > 0
    ensures i < n
  {
    var y := x * n as real;
    assert 0.0 <= y < n as real;
    y.Floor
  }

  /** Every listed file can be chosen: the value k / n picks the k-th one. */
  lemma PickEach(n: nat, k: nat)
    requires k < n
    ensures 0.0 <= k as real / n as real < 1.0
    ensures Pick(k as real / n as real, n) == k
  {
    var x := k as real / n as real;
    assert x * n as real == k as real;
  }

  /** What the script does with the page. */
  datatype Download =
    | NoFiles                                // "No files found to download."
    | Fetch(fileName: string, url: string)   // the GET of `fileUrl`, saved under `fileName` in the download folder

  /** `downloadFiles` after the page was read, for the value x of `Math.random()`. */
  function Plan(html: string, x: real): Download
    requires 0.0 <= x < 1.0
  {
    var fileNames := FileNames(html);
    if |fileNames| == 0 then NoFiles
    else
      var fileName := fileNames[Pick(x, |fileNames|)];
      Fetch(fileName, BaseUrl + "/" + UriComponent.Encode(fileName))
  }

  /**
   * Nothing is fetched exactly when the page links to no file. Otherwise one of the linked
   * names is fetched from the base URL followed by one more path segment: that segment holds
   * no `/`, and decoding it gives the name back.
   */
  lemma PlanCases(html: string, x: real)
    requires 0.0 <= x < 1.0
    ensures Plan(html, x).NoFiles? <==> NoMatchIn(html, 0, |html|)
    ensures Plan(html, x).Fetch? ==>
      var d := Plan(html, x);
      var segment := UriComponent.Encode(d.fileName);
      d.fileName in FileNames(html) && Linkable(d.fileName) &&
      d.url == BaseUrl + "/" + segment &&
      '/' !in segment &&
      UriComponent.Decode(segment) == Some(d.fileName)
  {
    NoNamesNoLinks(html);
    NamesAreLinks(html);
    var d := Plan(html, x);
    if d.Fetch? {
      var segment := UriComponent.Encode(d.fileName);
      UriComponent.EncodeAlphabet(d.fileName);
      UriComponent.DecodeEncode(d.fileName);
      assert forall i | 0 <= i < |segment| :: segment[i] != '/';
    }
  }

  /** On a page of links, each named file is the one fetched for some value of `Math.random()`. */
  lemma EveryLinkReachable(names: seq<string>, k: nat)
    requires forall i | 0 <= i < |names| :: Linkable(names[i])
    requires k < |names|
    ensures var x := k as real / |names| as real;
      0.0 <= x < 1.0 && Plan(Links(names), x) == Fetch(names[k], BaseUrl + "/" + UriComponent.Encode(names[k]))
  {
    LinksRoundTrip(names);
    PickEach(|names|, k);
  }
}
