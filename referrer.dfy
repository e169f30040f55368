/** The referrer classifier of helper/getSource.js: an optional referrer
    string is mapped to one of five traffic-source categories by
    case-insensitive substring tests checked in a fixed order. */
module Referrer {
  import opened Optional
  import opened Text

  /** The five categories the classifier returns. */
  datatype Source = Direct | SocialMedia | SearchEngines | Email | Other

  /** The exact strings the source returns for each category. */
  const SourceLabels: seq<string> := ["Direct", "Social Media", "Search Engines", "Email", "Other"]

  function Label(src: Source): (r: string)
    ensures r in SourceLabels
  {
    match src
    case Direct => "Direct"
    case SocialMedia => "Social Media"
    case SearchEngines => "Search Engines"
    case Email => "Email"
    case Other => "Other"
  }

  /** Distinct categories are reported under distinct labels. */
  lemma LabelInjective(a: Source, b: Source)
    requires Label(a) == Label(b)
    ensures a == b
  {
  }

  /** The patterns of the three tests, in the order the source lists them. */
  const SocialDomains: seq<string> := ["facebook.com", "twitter.com", "x.com", "instagram.com", "linkedin.com"]
  const SearchDomains: seq<string> := ["google.com", "bing.com", "yahoo.com", "duckduckgo.com"]
  const EmailMarkers: seq<string> := ["mail.google.com", "outlook.office.com", "mail.yahoo.com", "newsletter"]

  /** `s.includes(p0) || s.includes(p1) || ...`, evaluated left to right. */
  function IncludesAny(s: string, patterns: seq<string>): bool
    decreases |patterns|
  {
    if patterns == [] then false
    else Includes(s, patterns[0]) || IncludesAny(s, patterns[1..])
  }

  /** Some pattern of the list occurs in `s`. */
  ghost predicate OccursAny(s: string, patterns: seq<string>)
  {
    exists k :: 0 <= k < |patterns| && Occurs(s, patterns[k])
  }

  lemma {:induction false} IncludesAnyIffOccursAny(s: string, patterns: seq<string>)
    ensures IncludesAny(s, patterns) <==> OccursAny(s, patterns)
    decreases |patterns|
  {
    if patterns != [] {
      IncludesIffOccurs(s, patterns[0]);
      IncludesAnyIffOccursAny(s, patterns[1..]);
      if OccursAny(s, patterns[1..]) {
        var k :| 0 <= k < |patterns[1..]| && Occurs(s, patterns[1..][k]);
        assert Occurs(s, patterns[k + 1]);
      }
      if OccursAny(s, patterns) {
        var k :| 0 <= k < |patterns| && Occurs(s, patterns[k]);
        if k > 0 {
          assert patterns[1..][k - 1] == patterns[k];
        }
      }
    }
  }

  /** getSource(referrer). Each category is characterised by which pattern
      lists occur in the lower-cased referrer. */
  function GetSource(referrer: Option<string>): (r: Source)
    ensures r == Direct <==> !IsTruthy(referrer)
    ensures r == SocialMedia <==>
      IsTruthy(referrer) && OccursAny(ToLower(referrer.value), SocialDomains)
    ensures r == SearchEngines <==>
      IsTruthy(referrer) && !OccursAny(ToLower(referrer.value), SocialDomains)
      && OccursAny(ToLower(referrer.value), SearchDomains)
    ensures r == Email <==>
      IsTruthy(referrer) && !OccursAny(ToLower(referrer.value), SocialDomains)
      && !OccursAny(ToLower(referrer.value), SearchDomains)
      && OccursAny(ToLower(referrer.value), EmailMarkers)
    ensures r == Other <==>
      IsTruthy(referrer) && !OccursAny(ToLower(referrer.value), SocialDomains)
      && !OccursAny(ToLower(referrer.value), SearchDomains)
      && !OccursAny(ToLower(referrer.value), EmailMarkers)
  {
    if !IsTruthy(referrer) then Direct
    else
      var lower := ToLower(referrer.value);
      IncludesAnyIffOccursAny(lower, SocialDomains);
      IncludesAnyIffOccursAny(lower, SearchDomains);
      IncludesAnyIffOccursAny(lower, EmailMarkers);
      if IncludesAny(lower, SocialDomains) then SocialMedia
      else if IncludesAny(lower, SearchDomains) then SearchEngines
      else if IncludesAny(lower, EmailMarkers) then Email
      else Other
  }

  /** The category depends only on the lower-cased referrer: writing it in
      upper case, lower case or any mix that lower-cases alike changes
      nothing. */
  lemma CaseInsensitive(s: string, t: string)
    requires ToLower(s) == ToLower(t)
    ensures GetSource(Some(s)) == GetSource(Some(t))
    ensures GetSource(Some(s)) == GetSource(Some(ToUpper(s)))
    ensures GetSource(Some(s)) == GetSource(Some(ToLower(s)))
  {
    assert |s| == |t|;
    LowerOfUpper(s);
  }

  /** A referrer containing any social domain, in any case and whatever
      else it contains, is social media. */
  lemma SocialDomainWins(s: string, k: nat)
    requires k < |SocialDomains| && Occurs(ToLower(s), SocialDomains[k])
    ensures GetSource(Some(s)) == SocialMedia
  {
    var i :| OccursAt(ToLower(s), SocialDomains[k], i);
    assert |ToLower(s)| > 0;
  }

  /** Lower-casing distributes over concatenation. */
  lemma ToLowerConcat(a: string, b: string)
    ensures ToLower(a + b) == ToLower(a) + ToLower(b)
  {
    var l, r := ToLower(a + b), ToLower(a) + ToLower(b);
    assert |l| == |r|;
    forall i | 0 <= i < |l|
      ensures l[i] == r[i]
    {
      if i < |a| {
        assert (a + b)[i] == a[i];
      } else {
        assert (a + b)[i] == b[i - |a|];
      }
    }
  }

  /** Any referrer whose host ends in `x.com` counts as social media:
      `netflix.com`, `dropbox.com` and `box.com` all do. */
  lemma AnyXDotComIsSocial(before: string, after: string)
    ensures GetSource(Some(before + "x.com" + after)) == SocialMedia
  {
    var s := before + "x.com" + after;
    ToLowerConcat(before + "x.com", after);
    ToLowerConcat(before, "x.com");
    assert ToLower("x.com") == "x.com";
    OccursInConcat(ToLower(before), "x.com", ToLower(after));
    assert SocialDomains[2] == "x.com";
    SocialDomainWins(s, 2);
  }

  /** A referrer from a Dropbox page is classified as social media. */
  lemma DropboxIsSocial()
    ensures GetSource(Some("https://www.dropbox.com/home")) == SocialMedia
  {
    assert "https://www.dropbox.com/home" == "https://www.dropbo" + "x.com" + "/home";
    AnyXDotComIsSocial("https://www.dropbo", "/home");
  }

  /** `google.com` occurs in `mail.google.com` and `yahoo.com` in
      `mail.yahoo.com`. */
  lemma WebmailContainsSearch()
    ensures Occurs("mail.google.com", "google.com")
    ensures Occurs("mail.yahoo.com", "yahoo.com")
  {
    assert OccursAt("mail.google.com", "google.com", 5);
    assert OccursAt("mail.yahoo.com", "yahoo.com", 5);
  }

  /** Webmail referrers never reach the Email test: the search test sees
      `google.com`/`yahoo.com` first, so without a social domain they are
      search engines. */
  lemma WebmailIsSearch(s: string)
    requires Occurs(ToLower(s), "mail.google.com") || Occurs(ToLower(s), "mail.yahoo.com")
    ensures GetSource(Some(s)) != Email
    ensures !OccursAny(ToLower(s), SocialDomains) ==> GetSource(Some(s)) == SearchEngines
  {
    var l := ToLower(s);
    WebmailContainsSearch();
    if Occurs(l, "mail.google.com") {
      OccursTransitive(l, "mail.google.com", "google.com");
      assert Occurs(l, SearchDomains[0]);
    } else {
      OccursTransitive(l, "mail.yahoo.com", "yahoo.com");
      assert Occurs(l, SearchDomains[2]);
    }
  }

  /** What the Email branch really reacts to: of its four patterns only
      `outlook.office.com` and `newsletter` can ever produce Email. */
  lemma EmailExactly(s: string)
    ensures GetSource(Some(s)) == Email <==>
      s != "" && !OccursAny(ToLower(s), SocialDomains) && !OccursAny(ToLower(s), SearchDomains)
      && (Occurs(ToLower(s), "outlook.office.com") || Occurs(ToLower(s), "newsletter"))
  {
    var l := ToLower(s);
    if GetSource(Some(s)) == Email {
      var k :| 0 <= k < |EmailMarkers| && Occurs(l, EmailMarkers[k]);
      if k == 0 || k == 2 {
        WebmailIsSearch(s);
      }
    }
    if Occurs(l, "outlook.office.com") {
      assert Occurs(l, EmailMarkers[1]);
    }
    if Occurs(l, "newsletter") {
      assert Occurs(l, EmailMarkers[3]);
    }
  }

  /** Every pattern of every list starts with a character that is not
      whitespace. */
  lemma PatternsStartVisible(patterns: seq<string>, k: nat)
    requires patterns == SocialDomains || patterns == SearchDomains || patterns == EmailMarkers
    requires k < |patterns|
    ensures |patterns[k]| > 0 && !IsWhitespace(patterns[k][0])
  {
  }

  /** A present referrer made only of whitespace matches no pattern, so it
      is Other rather than Direct. */
  lemma BlankIsOther(s: string)
    requires s != []
    requires forall i :: 0 <= i < |s| ==> IsWhitespace(s[i])
    ensures GetSource(Some(s)) == Other
  {
    var l := ToLower(s);
    forall patterns, k | (patterns == SocialDomains || patterns == SearchDomains || patterns == EmailMarkers)
      && 0 <= k < |patterns|
      ensures !Occurs(l, patterns[k])
    {
      PatternsStartVisible(patterns, k);
      forall i | 0 <= i < |l|
        ensures !OccursAt(l, patterns[k], i)
      {
        assert l[i] == s[i];
      }
    }
  }
}
