/** The two link recognisers of the controllers, written as parsers.

    GitHub links (assignmentController.js, line 112) follow the
    case-insensitive pattern
      https?://(www.)?github.com/<user>/<repo>(/|.git)?
    with `<user>` and `<repo>` non-empty runs of `[A-Za-z0-9_-]`.

    Video links (materialController.js, lines 76 and 146) follow the
    case-sensitive pattern
      https?://(www.)?<host>.<domain>(/<path>)?
    with `<host>` and `<domain>` non-empty runs of `[A-Za-z0-9_-]` and
    `<path>` any run of `[A-Za-z0-9_./?%&=-]`.

    Each recogniser is paired with a renderer from a structured link, and
    the lemmas prove that a string is accepted exactly when it renders some
    well-formed structured link. */
module Links {
  import opened Js

  // ------------------------------------------------------------ characters

  /** `\w` in a regular expression without the `u` flag. Under the `i` flag
      JavaScript only folds a character onto ASCII when the character itself
      is ASCII, so `\w` still matches exactly these characters. */
  predicate IsWordChar(c: char)
  {
    'a' <= c <= 'z' || 'A' <= c <= 'Z' || '0' <= c <= '9' || c == '_'
  }

  /** `[\w-]` */
  predicate IsNameChar(c: char)
  {
    IsWordChar(c) || c == '-'
  }

  predicate IsName(s: string)
  {
    s != [] && forall i :: 0 <= i < |s| ==> IsNameChar(s[i])
  }

  /** `[\w-./?%&=]` */
  predicate IsPathChar(c: char)
  {
    IsNameChar(c) || c == '.' || c == '/' || c == '?' || c == '%' || c == '&' || c == '='
  }

  /** The case an `i`-flagged pattern compares in, for ASCII letters. */
  function Fold(c: char): char
  {
    if 'A' <= c <= 'Z' then (c as int + 32) as char else c
  }

  /** `s` with every ASCII letter in lower case. */
  function Lower(s: string): (r: string)
    ensures |r| == |s|
    ensures forall i :: 0 <= i < |s| ==> r[i] == Fold(s[i])
  {
    seq(|s|, i requires 0 <= i < |s| => Fold(s[i]))
  }

  /** `s` and `t` agree up to the case of ASCII letters. */
  predicate SameIgnoringCase(s: string, t: string)
  {
    Lower(s) == Lower(t)
  }

  /** `s` starts with `lit` up to case, for a `lit` written in lower case. */
  predicate StartsWithLower(s: string, lit: string)
  {
    |lit| <= |s| && Lower(s[..|lit|]) == lit
  }

  /** Text already in lower case is its own lower-case form. */
  lemma LowerOfLower(lit: string)
    requires forall i :: 0 <= i < |lit| ==> Fold(lit[i]) == lit[i]
    ensures Lower(lit) == lit
  {
  }

  /** Length of the longest prefix of `s` matched by `[\w-]*`. */
  function NameRun(s: string): (n: nat)
    ensures n <= |s|
    ensures forall i :: 0 <= i < n ==> IsNameChar(s[i])
    ensures n == |s| || !IsNameChar(s[n])
  {
    if s != [] && IsNameChar(s[0]) then 1 + NameRun(s[1..]) else 0
  }

  // ----------------------------------------------------------- GitHub links

  datatype Ending = Bare | Slash | DotGit

  datatype GithubLink = GithubLink(secure: bool, www: bool, user: string, repo: string, ending: Ending)

  predicate WellFormedGithub(l: GithubLink)
  {
    IsName(l.user) && IsName(l.repo)
  }

  function SchemeText(secure: bool): string
  {
    if secure then "https://" else "http://"
  }

  function GithubHostText(www: bool): string
  {
    if www then "www.github.com/" else "github.com/"
  }

  function EndingText(e: Ending): string
  {
    match e
    case Bare => ""
    case Slash => "/"
    case DotGit => ".git"
  }

  function GithubPathText(l: GithubLink): string
  {
    l.user + ("/" + (l.repo + EndingText(l.ending)))
  }

  /** The link in its lower-case spelling. */
  function RenderGithub(l: GithubLink): string
  {
    SchemeText(l.secure) + (GithubHostText(l.www) + GithubPathText(l))
  }

  function ParseGithubLink(s: string): Option<GithubLink>
  {
    if StartsWithLower(s, "https://") then ParseGithubHost(true, s[8..])
    else if StartsWithLower(s, "http://") then ParseGithubHost(false, s[7..])
    else None
  }

  function ParseGithubHost(secure: bool, b: string): Option<GithubLink>
  {
    if StartsWithLower(b, "www.github.com/") then ParseGithubPath(secure, true, b[15..])
    else if StartsWithLower(b, "github.com/") then ParseGithubPath(secure, false, b[11..])
    else None
  }

  /** `<user>/` and then the repository part. */
  function ParseGithubPath(secure: bool, www: bool, p: string): Option<GithubLink>
  {
    var u := NameRun(p);
    if u == 0 || u == |p| || p[u] != '/' then None
    else LinkOf(secure, www, p[..u], ParseGithubRepo(p[u + 1..]))
  }

  function LinkOf(secure: bool, www: bool, user: string, re: Option<(string, Ending)>): Option<GithubLink>
  {
    match re
    case None => None
    case Some(x) => Some(GithubLink(secure, www, user, x.0, x.1))
  }

  /** `<repo>(/|.git)?` up to the end of the text. */
  function ParseGithubRepo(q: string): Option<(string, Ending)>
  {
    var r := NameRun(q);
    if r == 0 then None
    else
      match ParseEnding(q[r..])
      case None => None
      case Some(e) => Some((q[..r], e))
  }

  function ParseEnding(t: string): Option<Ending>
  {
    if t == "" then Some(Bare)
    else if t == "/" then Some(Slash)
    else if Lower(t) == ".git" then Some(DotGit)
    else None
  }

  /** `githubRegex.test(s)` */
  predicate IsGithubLink(s: string)
  {
    ParseGithubLink(s).Some?
  }

  // Facts about strings and case-insensitive comparison.

  lemma SplitAt(s: string, k: nat)
    requires k < |s|
    ensures s == s[..k] + ([s[k]] + s[k + 1..])
  {
  }

  lemma Rejoin(s: string, k: nat)
    requires k <= |s|
    ensures s[..k] + s[k..] == s
  {
  }

  lemma LowerAppend(x: string, y: string)
    ensures Lower(x + y) == Lower(x) + Lower(y)
  {
    forall i | 0 <= i < |x + y| ensures Lower(x + y)[i] == (Lower(x) + Lower(y))[i] {
      if i >= |x| {
        assert (x + y)[i] == y[i - |x|];
      }
    }
  }

  lemma LowerSlice(s: string, i: nat, j: nat)
    requires i <= j <= |s|
    ensures Lower(s[i..j]) == Lower(s)[i..j]
  {
    forall k | 0 <= k < j - i ensures Lower(s[i..j])[k] == Lower(s)[i..j][k] {
      assert s[i..j][k] == s[i + k];
    }
  }

  /** The fixed parts of a rendered link are written in lower case. */
  lemma FixedTextsAreLower(secure: bool, www: bool, e: Ending)
    ensures Lower(SchemeText(secure)) == SchemeText(secure)
    ensures Lower(GithubHostText(www)) == GithubHostText(www)
    ensures Lower(EndingText(e)) == EndingText(e)
  {
    LowerOfLower(SchemeText(secure));
    LowerOfLower(GithubHostText(www));
    LowerOfLower(EndingText(e));
  }

  lemma SameIgnoringCaseSplit(s: string, x: string, y: string)
    requires SameIgnoringCase(s, x + y)
    ensures SameIgnoringCase(s[..|x|], x) && SameIgnoringCase(s[|x|..], y)
  {
    LowerAppend(x, y);
    LowerSlice(s, 0, |x|);
    LowerSlice(s, |x|, |s|);
    assert s[0..|x|] == s[..|x|];
    assert s[|x|..|s|] == s[|x|..];
  }

  lemma SameIgnoringCaseJoin(a: string, b: string, x: string, y: string)
    requires SameIgnoringCase(a, x) && SameIgnoringCase(b, y)
    ensures SameIgnoringCase(a + b, x + y)
  {
    LowerAppend(a, b);
    LowerAppend(x, y);
  }

  lemma SameIgnoringCaseRefl(s: string)
    ensures SameIgnoringCase(s, s)
  {
  }

  /** Equal prefixes, and tails equal up to case. */
  lemma SameIgnoringCaseAfter(a: string, b: string, y: string)
    requires SameIgnoringCase(b, y)
    ensures SameIgnoringCase(a + b, a + y)
  {
    SameIgnoringCaseJoin(a, b, a, y);
  }

  lemma FoldKeepsNameChars(a: char, b: char)
    requires Fold(a) == Fold(b)
    ensures IsNameChar(a) <==> IsNameChar(b)
  {
  }

  lemma NameRunIsName(s: string)
    requires NameRun(s) > 0
    ensures IsName(s[..NameRun(s)])
  {
  }

  /** A name followed by a character outside `[\w-]`, up to case, is read
      in full by `NameRun`. */
  lemma NameRunOfName(p: string, name: string, rest: string)
    requires SameIgnoringCase(p, name + rest)
    requires forall i :: 0 <= i < |name| ==> IsNameChar(name[i])
    requires rest == [] || !IsNameChar(rest[0])
    ensures NameRun(p) == |name|
  {
    forall i | 0 <= i < |name| ensures IsNameChar(p[i]) {
      assert Lower(p)[i] == Lower(name + rest)[i];
      assert (name + rest)[i] == name[i];
      FoldKeepsNameChars(p[i], name[i]);
    }
    if |name| < |p| {
      assert Lower(p)[|name|] == Lower(name + rest)[|name|];
      assert (name + rest)[|name|] == rest[0];
      FoldKeepsNameChars(p[|name|], rest[0]);
    }
  }

  lemma ParseEndingComplete(t: string, e: Ending)
    requires SameIgnoringCase(t, EndingText(e))
    ensures ParseEnding(t) == Some(e)
  {
    FixedTextsAreLower(false, false, e);
    if e == Slash {
      assert Lower(t)[0] == Fold(t[0]) == '/';
    }
    if e == DotGit {
      assert Lower(t)[0] == Fold(t[0]) == '.';
    }
  }

  lemma ParseEndingSound(t: string)
    requires ParseEnding(t).Some?
    ensures SameIgnoringCase(t, EndingText(ParseEnding(t).value))
  {
    FixedTextsAreLower(false, false, DotGit);
  }

  lemma ParseGithubRepoComplete(q: string, repo: string, e: Ending)
    requires IsName(repo) && SameIgnoringCase(q, repo + EndingText(e))
    ensures ParseGithubRepo(q).Some?
    ensures q == repo + EndingText(e) ==> ParseGithubRepo(q) == Some((repo, e))
  {
    var t := EndingText(e);
    assert t == [] || !IsNameChar(t[0]);
    NameRunOfName(q, repo, t);
    SameIgnoringCaseSplit(q, repo, t);
    ParseEndingComplete(q[|repo|..], e);
    if q == repo + t {
      assert q[..|repo|] == repo;
    }
  }

  lemma ParseGithubRepoSound(q: string)
    requires ParseGithubRepo(q).Some?
    ensures var re := ParseGithubRepo(q).value;
      IsName(re.0) && SameIgnoringCase(q, re.0 + EndingText(re.1))
  {
    var r := NameRun(q);
    NameRunIsName(q);
    var e := ParseEnding(q[r..]).value;
    assert ParseGithubRepo(q) == Some((q[..r], e));
    ParseEndingSound(q[r..]);
    SameIgnoringCaseAfter(q[..r], q[r..], EndingText(e));
    Rejoin(q, r);
  }

  /** A name, then a fixed character outside `[\w-]`, then a tail, all up to
      case: the name is read in full and the character is there as such. */
  lemma NameThenChar(p: string, name: string, c: char, rest: string)
    requires IsName(name) && !IsNameChar(c) && Fold(c) == c
    requires SameIgnoringCase(p, name + ([c] + rest))
    ensures NameRun(p) == |name| < |p| && p[|name|] == c
    ensures SameIgnoringCase(p[|name| + 1..], rest)
  {
    var u := |name|;
    NameRunOfName(p, name, [c] + rest);
    SameIgnoringCaseSplit(p, name, [c] + rest);
    SameIgnoringCaseSplit(p[u..], [c], rest);
    assert Lower(p[u..])[0] == Fold(p[u]);
    assert Lower([c] + rest)[0] == c;
    assert p[u..][1..] == p[u + 1..];
  }

  /** After a user name and a slash, up to case, the repository part is
      read with that user. */
  lemma ReadUser(secure: bool, www: bool, p: string, user: string, rest: string)
    requires IsName(user) && SameIgnoringCase(p, user + ("/" + rest))
    ensures SameIgnoringCase(p[|user| + 1..], rest)
    ensures ParseGithubPath(secure, www, p) == LinkOf(secure, www, p[..|user|], ParseGithubRepo(p[|user| + 1..]))
  {
    NameThenChar(p, user, '/', rest);
  }

  lemma ParseGithubPathComplete(secure: bool, www: bool, p: string, l: GithubLink)
    requires WellFormedGithub(l) && SameIgnoringCase(p, GithubPathText(l))
    ensures ParseGithubPath(secure, www, p).Some?
    ensures p == GithubPathText(l) ==> ParseGithubPath(secure, www, p) == Some(l.(secure := secure, www := www))
  {
    var rest := l.repo + EndingText(l.ending);
    var u := |l.user|;
    ReadUser(secure, www, p, l.user, rest);
    ParseGithubRepoComplete(p[u + 1..], l.repo, l.ending);
    if p == GithubPathText(l) {
      PathTextParts(l.user, '/', rest);
    }
  }

  lemma PathTextParts(a: string, c: char, b: string)
    ensures (a + ([c] + b))[..|a|] == a && (a + ([c] + b))[|a| + 1..] == b
  {
  }

  /** One fixed character between a prefix and a tail equal up to case. */
  lemma SameIgnoringCaseAround(a: string, c: char, b: string, y: string)
    requires SameIgnoringCase(b, y)
    ensures SameIgnoringCase(a + ([c] + b), a + ([c] + y))
  {
    SameIgnoringCaseAfter([c], b, y);
    SameIgnoringCaseAfter(a, [c] + b, [c] + y);
  }

  lemma ParseGithubPathSound(secure: bool, www: bool, p: string)
    requires ParseGithubPath(secure, www, p).Some?
    ensures var l := ParseGithubPath(secure, www, p).value;
      WellFormedGithub(l) && l.secure == secure && l.www == www && SameIgnoringCase(p, GithubPathText(l))
  {
    var u := NameRun(p);
    var q := p[u + 1..];
    NameRunIsName(p);
    ParseGithubRepoSound(q);
    var re := ParseGithubRepo(q).value;
    var l := GithubLink(secure, www, p[..u], re.0, re.1);
    assert ParseGithubPath(secure, www, p) == Some(l);
    SameIgnoringCaseAround(p[..u], '/', q, re.0 + EndingText(re.1));
    SplitAt(p, u);
  }

  /** A text that starts with `g`, up to case, does not start with `www.`. */
  lemma NotWww(b: string)
    requires |b| > 0 && Fold(b[0]) == 'g'
    ensures !StartsWithLower(b, "www.github.com/")
  {
    if |b| >= 15 {
      assert Lower(b[..15])[0] == Fold(b[0]);
    }
  }

  /** A text whose fifth character is `:` does not start with `https://`. */
  lemma NotHttps(s: string)
    requires |s| > 4 && Fold(s[4]) == ':'
    ensures !StartsWithLower(s, "https://")
  {
    if |s| >= 8 {
      assert Lower(s[..8])[4] == Fold(s[4]);
    }
  }

  /** `s` spells `lit` up to case, then goes on with `rest`. */
  lemma StartsWithFixed(s: string, lit: string, rest: string)
    requires SameIgnoringCase(s, lit + rest) && Lower(lit) == lit
    ensures StartsWithLower(s, lit) && SameIgnoringCase(s[|lit|..], rest)
  {
    SameIgnoringCaseSplit(s, lit, rest);
  }

  lemma Suffix(a: string, b: string)
    ensures (a + b)[|a|..] == b
  {
  }

  lemma ReadHttps(s: string, rest: string)
    requires SameIgnoringCase(s, "https://" + rest)
    ensures ParseGithubLink(s) == ParseGithubHost(true, s[8..])
    ensures SameIgnoringCase(s[8..], rest)
  {
    FixedTextsAreLower(true, false, Bare);
    StartsWithFixed(s, "https://", rest);
  }

  lemma ReadHttp(s: string, rest: string)
    requires SameIgnoringCase(s, "http://" + rest)
    ensures ParseGithubLink(s) == ParseGithubHost(false, s[7..])
    ensures SameIgnoringCase(s[7..], rest)
  {
    FixedTextsAreLower(false, false, Bare);
    StartsWithFixed(s, "http://", rest);
    assert Lower(s[..7])[4] == Fold(s[4]);
    NotHttps(s);
  }

  lemma ReadWwwHost(secure: bool, b: string, rest: string)
    requires SameIgnoringCase(b, "www.github.com/" + rest)
    ensures ParseGithubHost(secure, b) == ParseGithubPath(secure, true, b[15..])
    ensures SameIgnoringCase(b[15..], rest)
  {
    FixedTextsAreLower(false, true, Bare);
    StartsWithFixed(b, "www.github.com/", rest);
  }

  lemma ReadBareHost(secure: bool, b: string, rest: string)
    requires SameIgnoringCase(b, "github.com/" + rest)
    ensures ParseGithubHost(secure, b) == ParseGithubPath(secure, false, b[11..])
    ensures SameIgnoringCase(b[11..], rest)
  {
    FixedTextsAreLower(false, false, Bare);
    StartsWithFixed(b, "github.com/", rest);
    assert Lower(b[..11])[0] == Fold(b[0]);
    NotWww(b);
  }

  lemma ParseGithubHostComplete(secure: bool, b: string, l: GithubLink)
    requires WellFormedGithub(l) && SameIgnoringCase(b, GithubHostText(l.www) + GithubPathText(l))
    ensures ParseGithubHost(secure, b).Some?
    ensures b == GithubHostText(l.www) + GithubPathText(l) ==> ParseGithubHost(secure, b) == Some(l.(secure := secure))
  {
    var path := GithubPathText(l);
    if l.www {
      ReadWwwHost(secure, b, path);
      ParseGithubPathComplete(secure, true, b[15..], l);
      if b == "www.github.com/" + path {
        Suffix("www.github.com/", path);
      }
    } else {
      ReadBareHost(secure, b, path);
      ParseGithubPathComplete(secure, false, b[11..], l);
      if b == "github.com/" + path {
        Suffix("github.com/", path);
      }
    }
  }

  /** Every string that spells a well-formed link, in any letter case, is
      accepted. */
  lemma ParseGithubLinkComplete(s: string, l: GithubLink)
    requires WellFormedGithub(l) && SameIgnoringCase(s, RenderGithub(l))
    ensures IsGithubLink(s)
    ensures s == RenderGithub(l) ==> ParseGithubLink(s) == Some(l)
  {
    var rest := GithubHostText(l.www) + GithubPathText(l);
    if l.secure {
      ReadHttps(s, rest);
      ParseGithubHostComplete(true, s[8..], l);
      if s == "https://" + rest {
        Suffix("https://", rest);
      }
    } else {
      ReadHttp(s, rest);
      ParseGithubHostComplete(false, s[7..], l);
      if s == "http://" + rest {
        Suffix("http://", rest);
      }
    }
  }

  /** Rendering a well-formed link and recognising it gives the link back. */
  lemma GithubLinkRoundTrip(l: GithubLink)
    requires WellFormedGithub(l)
    ensures ParseGithubLink(RenderGithub(l)) == Some(l)
  {
    SameIgnoringCaseRefl(RenderGithub(l));
    ParseGithubLinkComplete(RenderGithub(l), l);
  }

  /** `s` starts with the lower-case `lit` up to case, then goes on with a
      tail equal to `rest` up to case. */
  lemma FixedThen(s: string, lit: string, rest: string)
    requires StartsWithLower(s, lit) && Lower(lit) == lit && SameIgnoringCase(s[|lit|..], rest)
    ensures SameIgnoringCase(s, lit + rest)
  {
    SameIgnoringCaseJoin(s[..|lit|], s[|lit|..], lit, rest);
    Rejoin(s, |lit|);
  }

  lemma ParseGithubHostSound(secure: bool, b: string)
    requires ParseGithubHost(secure, b).Some?
    ensures var l := ParseGithubHost(secure, b).value;
      WellFormedGithub(l) && l.secure == secure && SameIgnoringCase(b, GithubHostText(l.www) + GithubPathText(l))
  {
    var www := StartsWithLower(b, "www.github.com/");
    var h := GithubHostText(www);
    assert ParseGithubHost(secure, b) == ParseGithubPath(secure, www, b[|h|..]);
    ParseGithubPathSound(secure, www, b[|h|..]);
    FixedTextsAreLower(false, www, Bare);
    FixedThen(b, h, GithubPathText(ParseGithubHost(secure, b).value));
  }

  /** Every accepted string spells a well-formed link, up to letter case. */
  lemma ParseGithubLinkSound(s: string)
    requires IsGithubLink(s)
    ensures WellFormedGithub(ParseGithubLink(s).value)
    ensures SameIgnoringCase(s, RenderGithub(ParseGithubLink(s).value))
  {
    var secure := StartsWithLower(s, "https://");
    var sc := SchemeText(secure);
    assert ParseGithubLink(s) == ParseGithubHost(secure, s[|sc|..]);
    ParseGithubHostSound(secure, s[|sc|..]);
    var l := ParseGithubLink(s).value;
    FixedTextsAreLower(secure, false, Bare);
    FixedThen(s, sc, GithubHostText(l.www) + GithubPathText(l));
  }

  /** The recogniser accepts exactly the spellings of well-formed links. */
  lemma GithubLinkCharacterization(s: string)
    ensures IsGithubLink(s) <==> exists l :: WellFormedGithub(l) && SameIgnoringCase(s, RenderGithub(l))
  {
    if IsGithubLink(s) {
      ParseGithubLinkSound(s);
    }
    if exists l :: WellFormedGithub(l) && SameIgnoringCase(s, RenderGithub(l)) {
      var l :| WellFormedGithub(l) && SameIgnoringCase(s, RenderGithub(l));
      ParseGithubLinkComplete(s, l);
    }
  }

  // ------------------------------------------------------------ video links

  datatype VideoUrl = VideoUrl(secure: bool, www: bool, host: string, domain: string, path: Option<string>)

  /** `[\w-./?%&=]*` */
  predicate IsPath(s: string)
  {
    forall i :: 0 <= i < |s| ==> IsPathChar(s[i])
  }

  predicate WellFormedVideo(v: VideoUrl)
  {
    IsName(v.host) && IsName(v.domain) && (v.path.Some? ==> IsPath(v.path.value))
  }

  function PathSuffix(path: Option<string>): string
  {
    if path.Some? then "/" + path.value else ""
  }

  function SiteText(v: VideoUrl): string
  {
    v.host + ("." + (v.domain + PathSuffix(v.path)))
  }

  function RenderVideo(v: VideoUrl): string
  {
    SchemeText(v.secure) + (WwwText(v.www) + SiteText(v))
  }

  /** `<host>.` and then the domain part, with nothing after it. */
  function ParseSite(t: string): Option<(string, string, Option<string>)>
  {
    var h := NameRun(t);
    if h == 0 || h == |t| || t[h] != '.' then None
    else
      match ParseDomain(t[h + 1..])
      case None => None
      case Some(dp) => Some((t[..h], dp.0, dp.1))
  }

  /** `<domain>(/<path>)?` up to the end of the text. */
  function ParseDomain(rest: string): Option<(string, Option<string>)>
  {
    var d := NameRun(rest);
    if d == 0 then None
    else if d == |rest| then Some((rest, None))
    else if rest[d] == '/' && IsPath(rest[d + 1..]) then Some((rest[..d], Some(rest[d + 1..])))
    else None
  }

  /** Length of the case-sensitive `https?://` prefix of `s`; 0 when absent. */
  function SchemeLength(s: string): nat
  {
    if |s| >= 8 && s[..8] == "https://" then 8 else if |s| >= 7 && s[..7] == "http://" then 7 else 0
  }

  function ParseVideoUrl(s: string): Option<VideoUrl>
  {
    var n := SchemeLength(s);
    if n == 0 then None else ParseVideoHost(n == 8, s[n..])
  }

  /** What follows the scheme: the site with a `www.` in front is tried
      first, then the site alone. */
  function ParseVideoHost(secure: bool, b: string): Option<VideoUrl>
  {
    var withWww := if |b| >= 4 && b[..4] == "www." then ParseSite(b[4..]) else None;
    if withWww.Some? then
      Some(VideoUrl(secure, true, withWww.value.0, withWww.value.1, withWww.value.2))
    else
      match ParseSite(b)
      case None => None
      case Some(site) => Some(VideoUrl(secure, false, site.0, site.1, site.2))
  }

  /** `urlPattern.test(s)` */
  predicate IsVideoUrl(s: string)
  {
    ParseVideoUrl(s).Some?
  }

  function WwwText(www: bool): string
  {
    if www then "www." else ""
  }

  lemma ReadVideoScheme(secure: bool, b: string)
    ensures ParseVideoUrl(SchemeText(secure) + b) == ParseVideoHost(secure, b)
  {
    if secure {
      assert ("https://" + b)[..8] == "https://";
      assert ("https://" + b)[8..] == b;
    } else {
      var s := "http://" + b;
      assert s[..7] == "http://";
      assert s[7..] == b;
      assert |s| >= 8 ==> s[..8][4] == ':';
    }
  }

  lemma SchemeOfLength(s: string)
    requires SchemeLength(s) != 0
    ensures s == SchemeText(SchemeLength(s) == 8) + s[SchemeLength(s)..]
  {
    Rejoin(s, SchemeLength(s));
  }

  lemma ParseDomainSound(rest: string)
    requires ParseDomain(rest).Some?
    ensures var dp := ParseDomain(rest).value;
      IsName(dp.0) && (dp.1.Some? ==> IsPath(dp.1.value)) && dp.0 + PathSuffix(dp.1) == rest
  {
    var d := NameRun(rest);
    NameRunIsName(rest);
    if d < |rest| {
      SplitAt(rest, d);
    } else {
      assert rest[..d] == rest;
    }
  }

  lemma ParseDomainComplete(domain: string, path: Option<string>)
    requires IsName(domain) && (path.Some? ==> IsPath(path.value))
    ensures ParseDomain(domain + PathSuffix(path)) == Some((domain, path))
  {
    var ps := PathSuffix(path);
    var rest := domain + ps;
    SameIgnoringCaseRefl(rest);
    NameRunOfName(rest, domain, ps);
    var d := |domain|;
    assert rest[..d] == domain;
    if path.Some? {
      assert rest[d..] == ps;
      assert rest[d] == '/';
      assert rest[d + 1..] == path.value;
    } else {
      assert rest == domain;
    }
  }

  lemma ParseSiteSound(t: string)
    requires ParseSite(t).Some?
    ensures var site := ParseSite(t).value;
      var v := VideoUrl(false, false, site.0, site.1, site.2);
      WellFormedVideo(v) && SiteText(v) == t
  {
    var h := NameRun(t);
    NameRunIsName(t);
    ParseDomainSound(t[h + 1..]);
    SplitAt(t, h);
  }

  lemma ParseSiteComplete(v: VideoUrl)
    requires WellFormedVideo(v)
    ensures ParseSite(SiteText(v)) == Some((v.host, v.domain, v.path))
  {
    var rest := v.domain + PathSuffix(v.path);
    NameThenChar(SiteText(v), v.host, '.', rest);
    PathTextParts(v.host, '.', rest);
    ParseDomainComplete(v.domain, v.path);
  }

  lemma ParseVideoHostComplete(v: VideoUrl)
    requires WellFormedVideo(v)
    ensures ParseVideoHost(v.secure, WwwText(v.www) + SiteText(v)).Some?
  {
    var t := SiteText(v);
    ParseSiteComplete(v);
    if v.www {
      WwwSite(v.secure, t);
    } else {
      assert WwwText(false) + t == t;
      BareSite(v.secure, t);
    }
  }

  lemma WwwSite(secure: bool, t: string)
    requires ParseSite(t).Some?
    ensures ParseVideoHost(secure, WwwText(true) + t).Some?
  {
    var b := "www." + t;
    assert b[..4] == "www.";
    assert b[4..] == t;
  }

  lemma BareSite(secure: bool, t: string)
    requires ParseSite(t).Some?
    ensures ParseVideoHost(secure, t).Some?
  {
  }

  /** Every well-formed video link is accepted. When the host is `www` and
      the rendering has no `www.`, the recogniser may read it the other way
      round; it still accepts. */
  lemma ParseVideoUrlComplete(v: VideoUrl)
    requires WellFormedVideo(v)
    ensures IsVideoUrl(RenderVideo(v))
  {
    ReadVideoScheme(v.secure, WwwText(v.www) + SiteText(v));
    ParseVideoHostComplete(v);
  }

  lemma ParseVideoHostSound(secure: bool, b: string)
    requires ParseVideoHost(secure, b).Some?
    ensures var v := ParseVideoHost(secure, b).value;
      WellFormedVideo(v) && v.secure == secure && WwwText(v.www) + SiteText(v) == b
  {
    if |b| >= 4 && b[..4] == "www." && ParseSite(b[4..]).Some? {
      ParseSiteSound(b[4..]);
      Rejoin(b, 4);
    } else {
      ParseSiteSound(b);
      assert WwwText(false) + b == b;
    }
  }

  /** Every accepted string is the rendering of a well-formed video link. */
  lemma ParseVideoUrlSound(s: string)
    requires IsVideoUrl(s)
    ensures WellFormedVideo(ParseVideoUrl(s).value) && RenderVideo(ParseVideoUrl(s).value) == s
  {
    var n := SchemeLength(s);
    SchemeOfLength(s);
    ParseVideoHostSound(n == 8, s[n..]);
  }

  /** The recogniser accepts exactly the renderings of well-formed video links. */
  lemma VideoUrlCharacterization(s: string)
    ensures IsVideoUrl(s) <==> exists v :: WellFormedVideo(v) && RenderVideo(v) == s
  {
    if IsVideoUrl(s) {
      ParseVideoUrlSound(s);
    }
    if exists v :: WellFormedVideo(v) && RenderVideo(v) == s {
      var v :| WellFormedVideo(v) && RenderVideo(v) == s;
      ParseVideoUrlComplete(v);
    }
  }
}
