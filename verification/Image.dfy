/**
 * Docker image references (provider/common/image.go). The regular expression is given as a grammar with
 * its preferences: a registry if there can be one, then the shortest repository.
 */
module Image {
  import opened Options
  import opened Strings

  datatype ImageInfo = ImageInfo(registry: string, repo: string, tag: string, digest: string)
  {
    method FullImage() returns (s: string)
      ensures s == Printed(this)
      ensures s == (if registry == "" then repo else registry + "/" + repo)
                   + ((if tag == "" then "" else ":" + tag) + (if digest == "" then "" else "@" + digest))
    {
      s := repo;
      if registry != "" {
        s := registry + "/" + s;
      }
      if tag != "" {
        s := s + ":" + tag;
      }
      if digest != "" {
        s := s + "@" + digest;
      }
      assert s == RepoPart(this) + SuffixText(tag, digest);
    }
  }

  function RepoPart(i: ImageInfo): string {
    (if i.registry != "" then i.registry + "/" else "") + i.repo
  }

  function SuffixText(tag: string, digest: string): string {
    (if tag != "" then ":" + tag else "") + (if digest != "" then "@" + digest else "")
  }

  function Printed(i: ImageInfo): string {
    RepoPart(i) + SuffixText(i.tag, i.digest)
  }

  // ----- the pieces of the regular expression

  predicate IsLowerAlnum(c: char) {
    '0' <= c <= '9' || 'a' <= c <= 'z'
  }

  predicate IsWord(c: char) {
    IsLowerAlnum(c) || 'A' <= c <= 'Z' || c == '_'
  }

  /** [0-9a-z](?:[0-9a-z-]{0,61}[0-9a-z])? */
  predicate IsLabel(s: string) {
    && 1 <= |s| <= 63 && IsLowerAlnum(s[0]) && IsLowerAlnum(s[|s| - 1])
    && forall c :: c in s ==> IsLowerAlnum(c) || c == '-'
  }

  /** [a-z]{2,63} */
  predicate IsTopLevel(s: string) {
    2 <= |s| <= 63 && forall c :: c in s ==> 'a' <= c <= 'z'
  }

  /** (?:<label>\.)+<top level> */
  predicate IsRegistry(s: string) {
    var parts := Split(s, '.');
    && |parts| >= 2 && IsTopLevel(parts[|parts| - 1])
    && forall i :: 0 <= i < |parts| - 1 ==> IsLabel(parts[i])
  }

  /** .{1,127} */
  predicate IsRepo(s: string) {
    1 <= |s| <= 127 && '\n' !in s
  }

  /** \w[\w.-]{0,127} */
  predicate IsTag(s: string) {
    1 <= |s| <= 128 && IsWord(s[0]) && forall c :: c in s ==> IsWord(c) || c == '.' || c == '-'
  }

  /** sha256:[0-9a-f]{64} */
  predicate IsDigest(s: string) {
    && |s| == 71 && "sha256:" <= s
    && forall c :: c in s[7..] ==> '0' <= c <= '9' || 'a' <= c <= 'f'
  }

  /** The forms in full: 64 hexadecimal digits, and a word character with at most 127 more. */
  lemma SuffixForms(hex: string, c: char, rest: string)
    ensures IsDigest("sha256:" + hex) <==> |hex| == 64 && forall d :: d in hex ==> d in "0123456789abcdef"
    ensures IsTag([c] + rest) <==>
      IsWord(c) && |rest| <= 127 && forall d :: d in rest ==> IsWord(d) || d == '.' || d == '-'
  {
    assert ("sha256:" + hex)[7..] == hex;
    forall d: char ensures '0' <= d <= '9' || 'a' <= d <= 'f' <==> d in "0123456789abcdef" {
      HexDigits(d);
    }
    assert forall d :: d in [c] + rest <==> d == c || d in rest;
  }

  lemma HexDigits(d: char)
    ensures ('0' <= d <= '9' || 'a' <= d <= 'f') <==> d in "0123456789abcdef"
  {
    var digits := "0123456789abcdef";
    if '0' <= d <= '9' {
      assert digits[d as int - '0' as int] == d;
    }
    if 'a' <= d <= 'f' {
      assert digits[d as int - 'a' as int + 10] == d;
    }
  }

  predicate IsSuffix(tag: string, digest: string) {
    (tag == "" || IsTag(tag)) && (digest == "" || IsDigest(digest))
  }

  /** s matches the expression with these groups. */
  ghost predicate Matches(s: string, i: ImageInfo) {
    && (i.registry == "" || IsRegistry(i.registry)) && IsRepo(i.repo) && IsSuffix(i.tag, i.digest)
    && s == Printed(i)
  }

  // ----- the match the engine finds

  /** The tag and digest groups, when they take up all of rest. */
  function ParseSuffix(rest: string): Option<(string, string)> {
    if rest == "" then Some(("", ""))
    else if rest[0] == '@' then
      if IsDigest(rest[1..]) then Some(("", rest[1..])) else None
    else if rest[0] == ':' then
      var i := IndexOf(rest, '@');
      if i == -1 then if IsTag(rest[1..]) then Some((rest[1..], "")) else None
      else if IsTag(rest[1..i]) && IsDigest(rest[i + 1..]) then Some((rest[1..i], rest[i + 1..])) else None
    else None
  }

  /** The lazy repository: the first length from k on that lets the rest match. */
  function ShortestRepo(s: string, k: nat): Option<nat>
    requires 1 <= k
    decreases |s| - k
  {
    if k > |s| || k > 127 || s[k - 1] == '\n' then None
    else if ParseSuffix(s[k..]).Some? then Some(k)
    else ShortestRepo(s, k + 1)
  }

  /** The part after any registry. */
  function ParseRest(registry: string, s: string): Option<ImageInfo> {
    match ShortestRepo(s, 1)
    case None => None
    case Some(k) =>
      if k <= |s| && ParseSuffix(s[k..]).Some? then
        var (tag, digest) := ParseSuffix(s[k..]).value;
        Some(ImageInfo(registry, s[..k], tag, digest))
      else None
  }

  function ParseWithRegistry(s: string): Option<ImageInfo> {
    var i := IndexOf(s, '/');
    if i > 0 && IsRegistry(s[..i]) then ParseRest(s[..i], s[i + 1..]) else None
  }

  function ParseImage(image: string): ImageInfo {
    match ParseWithRegistry(image)
    case Some(i) => i
    case None =>
      match ParseRest("", image)
      case Some(i) => i
      case None => ImageInfo("", image, "", "")
  }

  // ----- the suffix is unambiguous

  lemma TagHasNoAt(tag: string)
    requires IsTag(tag)
    ensures '@' !in tag
  {
    assert !IsWord('@');
  }

  lemma SuffixParses(tag: string, digest: string)
    requires IsSuffix(tag, digest)
    ensures ParseSuffix(SuffixText(tag, digest)) == Some((tag, digest))
  {
    var rest := SuffixText(tag, digest);
    if tag == "" {
      if digest != "" {
        assert rest == "@" + digest && rest[1..] == digest;
      }
    } else {
      TagHasNoAt(tag);
      if digest == "" {
        assert rest == ":" + tag && rest[1..] == tag;
      } else {
        assert rest == (":" + tag) + ['@'] + digest;
        FirstIndex(":" + tag, '@', digest);
        assert rest[1..|tag| + 1] == tag && rest[|tag| + 2..] == digest;
      }
    }
  }

  lemma ParsedSuffixPrints(rest: string)
    requires ParseSuffix(rest).Some?
    ensures var (tag, digest) := ParseSuffix(rest).value; IsSuffix(tag, digest) && SuffixText(tag, digest) == rest
  {
    if rest != "" && rest[0] == ':' {
      var i := IndexOf(rest, '@');
      if i != -1 {
        assert rest == ":" + rest[1..i] + "@" + rest[i + 1..];
      } else {
        assert rest == ":" + rest[1..];
      }
    } else if rest != "" {
      assert rest == "@" + rest[1..];
    }
  }

  lemma {:induction false} ShortestRepoMeaning(s: string, k: nat)
    requires 1 <= k && k <= |s| + 1 && '\n' !in s[..k - 1]
    ensures match ShortestRepo(s, k)
      case Some(n) => k <= n <= |s| && IsRepo(s[..n]) && ParseSuffix(s[n..]).Some?
                      && forall j :: k <= j < n ==> ParseSuffix(s[j..]).None?
      case None => forall j :: k <= j <= |s| && IsRepo(s[..j]) ==> ParseSuffix(s[j..]).None?
    decreases |s| + 1 - k
  {
    if k <= |s| && k <= 127 && s[k - 1] != '\n' {
      assert s[..k] == s[..k - 1] + [s[k - 1]];
      if ParseSuffix(s[k..]).None? {
        ShortestRepoMeaning(s, k + 1);
      }
    } else if k <= |s| {
      NoLongerRepo(s, k);
    }
  }

  lemma NoLongerRepo(s: string, k: nat)
    requires 1 <= k <= |s| && (k > 127 || s[k - 1] == '\n')
    ensures forall j :: k <= j <= |s| ==> !IsRepo(s[..j])
  {
    forall j | k <= j <= |s| ensures !IsRepo(s[..j]) {
      assert s[..j][k - 1] == s[k - 1];
    }
  }

  /** The parsed rest matches, with the shortest repository any match could have. */
  lemma RestMeaning(registry: string, s: string)
    ensures match ParseRest(registry, s)
      case Some(i) => i.registry == registry && IsRepo(i.repo) && IsSuffix(i.tag, i.digest)
                      && s == i.repo + SuffixText(i.tag, i.digest)
                      && forall j :: 1 <= j < |i.repo| ==> ParseSuffix(s[j..]).None?
      case None => forall j :: 1 <= j <= |s| && IsRepo(s[..j]) ==> ParseSuffix(s[j..]).None?
  {
    assert s[..0] == "";
    ShortestRepoMeaning(s, 1);
    match ShortestRepo(s, 1) {
      case Some(k) =>
        ParsedSuffixPrints(s[k..]);
        assert s == s[..k] + s[k..];
      case None =>
    }
  }

  // ----- round trips

  lemma RegistryHasNoSlash(r: string)
    requires IsRegistry(r)
    ensures '/' !in r && r != ""
  {
    var parts := Split(r, '.');
    JoinSplit(r, '.');
    forall i | 0 <= i < |parts| ensures '/' !in parts[i] {
      if i < |parts| - 1 {
        LabelHasNoSlash(parts[i]);
      }
    }
    NotInJoin(parts, '.', '/');
  }

  lemma LabelHasNoSlash(s: string)
    requires IsLabel(s)
    ensures '/' !in s
  {
    assert !IsLowerAlnum('/');
  }

  lemma {:induction false} NotInJoin(parts: seq<string>, sep: char, c: char)
    requires (forall p :: p in parts ==> c !in p) && c != sep
    ensures c !in Join(parts, sep)
  {
    if |parts| == 1 {
      assert parts[0] in parts;
    } else if |parts| > 1 {
      assert parts[0] in parts;
      NotInJoin(parts[1..], sep, c);
    }
  }

  /** Printing what was parsed gives back the original, whatever the string. */
  lemma ParsePrint(s: string)
    ensures Printed(ParseImage(s)) == s
  {
    if ParseWithRegistry(s).Some? {
      WithRegistryPrints(s);
    } else if ParseRest("", s).Some? {
      RestMeaning("", s);
    }
    assert s + "" == s;
  }

  lemma WithRegistryPrints(s: string)
    requires ParseWithRegistry(s).Some?
    ensures Printed(ParseWithRegistry(s).value) == s
  {
    var i := IndexOf(s, '/');
    assert s[..i] != "";
    RestPrints(s[..i], s[i + 1..], ParseWithRegistry(s).value);
    assert s == s[..i] + "/" + s[i + 1..];
  }

  lemma RestPrints(registry: string, rest: string, m: ImageInfo)
    requires registry != "" && ParseRest(registry, rest) == Some(m)
    ensures Printed(m) == registry + "/" + rest
  {
    RestMeaning(registry, rest);
    RegistryPrinted(m);
  }

  lemma RegistryPrinted(m: ImageInfo)
    requires m.registry != ""
    ensures Printed(m) == m.registry + "/" + (m.repo + SuffixText(m.tag, m.digest))
  {
    var suffix := SuffixText(m.tag, m.digest);
    assert m.registry + "/" + m.repo + suffix == m.registry + "/" + (m.repo + suffix);
  }

  /** A first path segment that could be taken for a registry. */
  predicate StartsWithDomain(repo: string) {
    IndexOf(repo, '/') > 0 && IsRegistry(repo[..IndexOf(repo, '/')])
  }

  predicate WellFormed(i: ImageInfo) {
    && (if i.registry == "" then !StartsWithDomain(i.repo) else IsRegistry(i.registry))
    && IsRepo(i.repo) && ':' !in i.repo && '@' !in i.repo
    && IsSuffix(i.tag, i.digest)
  }

  /** However lazy the repository, without ':' and '@' it is found whole. */
  lemma RestParses(registry: string, repo: string, tag: string, digest: string)
    requires IsRepo(repo) && ':' !in repo && '@' !in repo && IsSuffix(tag, digest)
    ensures ParseRest(registry, repo + SuffixText(tag, digest)) == Some(ImageInfo(registry, repo, tag, digest))
  {
    var s := repo + SuffixText(tag, digest);
    SuffixParses(tag, digest);
    assert s[|repo|..] == SuffixText(tag, digest) && s[..|repo|] == repo;
    RestMeaning(registry, s);
    forall j | 1 <= j < |repo| ensures ParseSuffix(s[j..]).None? {
      assert s[j..][0] == repo[j] && repo[j] in repo;
    }
    assert s[..0] == "";
    ShortestRepoMeaning(s, 1);
  }

  lemma SlashInSuffix(tag: string, digest: string)
    requires IsSuffix(tag, digest)
    ensures '/' !in SuffixText(tag, digest)
  {
    assert !IsWord('/');
    if digest != "" {
      assert digest == "sha256:" + digest[7..];
    }
  }

  /** What a printed reference with a registry looks like up to its first slash. */
  lemma RegistryInFront(m: ImageInfo)
    requires IsRegistry(m.registry)
    ensures var s, n := Printed(m), |m.registry|;
      && IndexOf(s, '/') == n && n > 0 && n < |s| && s[..n] == m.registry
      && s[n + 1..] == m.repo + SuffixText(m.tag, m.digest)
  {
    var rest := m.repo + SuffixText(m.tag, m.digest);
    RegistryHasNoSlash(m.registry);
    SlashCut(m.registry, rest);
    RegistryPrinted(m);
  }

  /** A well-formed reference, printed and parsed, keeps its four parts. */
  lemma PrintParse(i: ImageInfo)
    requires WellFormed(i)
    ensures ParseImage(Printed(i)) == i
  {
    RestParses(i.registry, i.repo, i.tag, i.digest);
    if i.registry != "" {
      RegistryInFront(i);
    } else {
      NoRegistryInFront(i);
    }
  }

  lemma NoRegistryInFront(i: ImageInfo)
    requires i.registry == "" && !StartsWithDomain(i.repo) && IsSuffix(i.tag, i.digest)
    ensures Printed(i) == i.repo + SuffixText(i.tag, i.digest)
    ensures ParseWithRegistry(Printed(i)).None?
  {
    var suffix := SuffixText(i.tag, i.digest);
    SlashInSuffix(i.tag, i.digest);
    NoRegistryBefore(i.repo, suffix);
    BarePrinted(i, suffix);
  }

  lemma BarePrinted(i: ImageInfo, suffix: string)
    requires i.registry == "" && suffix == SuffixText(i.tag, i.digest)
    ensures Printed(i) == i.repo + suffix
  {
  }

  lemma NoRegistryBefore(repo: string, suffix: string)
    requires '/' !in suffix && !StartsWithDomain(repo)
    ensures ParseWithRegistry(repo + suffix).None?
  {
    var k := IndexOf(repo, '/');
    FirstSlash(repo, suffix);
    if k > 0 {
      assert (repo + suffix)[..k] == repo[..k];
    }
  }

  lemma {:induction false} FirstSlash(repo: string, suffix: string)
    requires '/' !in suffix
    ensures IndexOf(repo + suffix, '/') == IndexOf(repo, '/')
  {
    if repo == "" {
      assert repo + suffix == suffix;
    } else {
      assert (repo + suffix)[0] == repo[0] && (repo + suffix)[1..] == repo[1..] + suffix;
      FirstSlash(repo[1..], suffix);
    }
  }

  /** Something must be left for the repository: the rest of it, or a suffix short enough to pass for one. */
  predicate TakenForRegistry(i: ImageInfo) {
    && StartsWithDomain(i.repo)
    && (IndexOf(i.repo, '/') < |i.repo| - 1 || (SuffixText(i.tag, i.digest) != "" && |i.tag| < 127))
  }

  /** Without a registry, a reference comes back as it was iff its first segment is not taken for one. */
  lemma DomainBecomesRegistry(i: ImageInfo)
    requires i.registry == "" && IsRepo(i.repo) && ':' !in i.repo && '@' !in i.repo && IsSuffix(i.tag, i.digest)
    ensures ParseImage(Printed(i)) == i <==> !TakenForRegistry(i)
    ensures TakenForRegistry(i) ==> ParseImage(Printed(i)).registry == i.repo[..IndexOf(i.repo, '/')]
    ensures TakenForRegistry(i) && IndexOf(i.repo, '/') < |i.repo| - 1 ==>
      ParseImage(Printed(i)).repo == i.repo[IndexOf(i.repo, '/') + 1..]
      && ParseImage(Printed(i)).tag == i.tag && ParseImage(Printed(i)).digest == i.digest
  {
    if !StartsWithDomain(i.repo) {
      PrintParse(i);
    } else if IndexOf(i.repo, '/') < |i.repo| - 1 {
      FirstSegmentTaken(i);
    } else {
      NothingAfterDomain(i);
    }
  }

  lemma FirstSegmentTaken(i: ImageInfo)
    requires i.registry == "" && StartsWithDomain(i.repo) && IndexOf(i.repo, '/') < |i.repo| - 1
    requires IsRepo(i.repo) && ':' !in i.repo && '@' !in i.repo && IsSuffix(i.tag, i.digest)
    ensures var k := IndexOf(i.repo, '/');
      ParseImage(Printed(i)) == ImageInfo(i.repo[..k], i.repo[k + 1..], i.tag, i.digest)
  {
    var k := IndexOf(i.repo, '/');
    var j := ImageInfo(i.repo[..k], i.repo[k + 1..], i.tag, i.digest);
    assert i.repo == i.repo[..k] + "/" + i.repo[k + 1..];
    assert IsRepo(j.repo);
    assert Printed(i) == Printed(j);
    PrintParse(j);
  }

  /** A domain and a slash: the suffix itself has to do for a repository. */
  lemma NothingAfterDomain(i: ImageInfo)
    requires i.registry == "" && StartsWithDomain(i.repo) && IndexOf(i.repo, '/') == |i.repo| - 1
    requires IsRepo(i.repo) && ':' !in i.repo && '@' !in i.repo && IsSuffix(i.tag, i.digest)
    ensures TakenForRegistry(i) ==> ParseImage(Printed(i)).registry == i.repo[..|i.repo| - 1] != ""
    ensures !TakenForRegistry(i) ==> ParseImage(Printed(i)) == i
  {
    var domain, suffix := i.repo[..|i.repo| - 1], SuffixText(i.tag, i.digest);
    DomainAndSlash(i, domain, suffix);
    SuffixAsRepo(domain, i.tag, i.digest);
    RestMeaning(domain, suffix);
    RestParses("", i.repo, i.tag, i.digest);
  }

  lemma DomainAndSlash(i: ImageInfo, domain: string, suffix: string)
    requires i.registry == "" && i.repo == domain + "/" && '/' !in domain && domain != "" && IsRegistry(domain)
    requires suffix == SuffixText(i.tag, i.digest)
    ensures ParseWithRegistry(Printed(i)) == ParseRest(domain, suffix)
    ensures Printed(i) == i.repo + suffix
  {
    BarePrinted(i, suffix);
    SlashCut(domain, suffix);
  }

  lemma SlashCut(before: string, after: string)
    requires '/' !in before
    ensures var s := before + "/" + after;
      IndexOf(s, '/') == |before| && s[..|before|] == before && s[|before| + 1..] == after
  {
    FirstIndex(before, '/', after);
  }

  lemma SuffixAsRepo(registry: string, tag: string, digest: string)
    requires IsSuffix(tag, digest)
    ensures var s := SuffixText(tag, digest); ParseRest(registry, s).Some? <==> s != "" && |tag| < 127
  {
    var s := SuffixText(tag, digest);
    if s == "" {
      RestMeaning(registry, s);
    } else if tag == "" {
      DigestAsRepo(registry, digest);
    } else if |tag| < 127 {
      TagAsRepo(registry, tag, digest);
    } else {
      LongTagIsNoRepo(registry, tag, digest);
    }
  }

  /** "@sha256" would be the repository, and the digest's digits the tag. */
  lemma DigestAsRepo(registry: string, digest: string)
    requires IsDigest(digest)
    ensures ParseRest(registry, SuffixText("", digest)).Some?
  {
    var s, hex := SuffixText("", digest), digest[7..];
    assert s == "@sha256" + (":" + hex);
    assert s[..7] == "@sha256" && s[7..] == SuffixText(hex, "");
    assert hex[0] in hex;
    SuffixParses(hex, "");
    RestMeaning(registry, s);
    assert IsRepo(s[..7]);
  }

  lemma TagAsRepo(registry: string, tag: string, digest: string)
    requires IsTag(tag) && |tag| < 127 && IsSuffix(tag, digest)
    ensures ParseRest(registry, SuffixText(tag, digest)).Some?
  {
    var s, j := SuffixText(tag, digest), |tag| + 1;
    assert s == (":" + tag) + SuffixText("", digest);
    assert s[..j] == ":" + tag && s[j..] == SuffixText("", digest);
    SuffixParses("", digest);
    RestMeaning(registry, s);
    assert !IsWord('\n');
    assert IsRepo(s[..j]);
  }

  /** Any repository would have to end inside the tag. */
  lemma LongTagIsNoRepo(registry: string, tag: string, digest: string)
    requires IsTag(tag) && |tag| >= 127
    ensures ParseRest(registry, SuffixText(tag, digest)).None?
  {
    var s := SuffixText(tag, digest);
    forall n | 1 <= n <= 127 ensures ParseSuffix(s[n..]).None? {
      assert s[n..][0] == tag[n - 1] && tag[n - 1] in tag;
    }
    assert s[..0] == "";
    ShortestRepoMeaning(s, 1);
  }

  /** With a registry in s, the rest of s is where any match with one continues. */
  lemma RegistryPreferred(s: string, other: ImageInfo)
    requires Matches(s, other) && other.registry != ""
    ensures var found := ParseWithRegistry(s);
      found.Some? && found.value.registry == other.registry && |found.value.repo| <= |other.repo|
  {
    RegistryInFront(other);
    var rest := other.repo + SuffixText(other.tag, other.digest);
    RestMeaning(other.registry, rest);
    CandidateLength(other, rest);
  }

  lemma CandidateLength(m: ImageInfo, rest: string)
    requires IsRepo(m.repo) && IsSuffix(m.tag, m.digest) && rest == m.repo + SuffixText(m.tag, m.digest)
    ensures IsRepo(rest[..|m.repo|]) && ParseSuffix(rest[|m.repo|..]).Some?
  {
    SuffixParses(m.tag, m.digest);
    assert rest[|m.repo|..] == SuffixText(m.tag, m.digest) && rest[..|m.repo|] == m.repo;
  }

  lemma ShortestPreferred(s: string, other: ImageInfo)
    requires Matches(s, other) && other.registry == ""
    ensures var found := ParseRest("", s); found.Some? && |found.value.repo| <= |other.repo|
  {
    assert s == other.repo + SuffixText(other.tag, other.digest);
    RestMeaning("", s);
    CandidateLength(other, s);
  }

  lemma FoundMatches(s: string)
    ensures ParseWithRegistry(s).Some? ==> Matches(s, ParseImage(s))
    ensures ParseRest("", s).Some? ==> Matches(s, ParseImage(s))
  {
    ParsePrint(s);
    var i := IndexOf(s, '/');
    if i > 0 {
      RestMeaning(s[..i], s[i + 1..]);
    }
    RestMeaning("", s);
  }

  /** The match found is the preferred one: with a registry if any match has one, then the shortest repo. */
  lemma ParseIsPreferred(s: string, other: ImageInfo)
    requires Matches(s, other)
    ensures Matches(s, ParseImage(s))
    ensures other.registry != "" ==> ParseImage(s).registry == other.registry
    ensures other.registry == ParseImage(s).registry ==> |ParseImage(s).repo| <= |other.repo|
  {
    FoundMatches(s);
    if other.registry != "" {
      RegistryPreferred(s, other);
    } else {
      ShortestPreferred(s, other);
      WithRegistryNotEmpty(s);
    }
  }

  lemma WithRegistryNotEmpty(s: string)
    ensures ParseWithRegistry(s).Some? ==> ParseWithRegistry(s).value.registry != ""
  {
    var i := IndexOf(s, '/');
    if i > 0 {
      RestMeaning(s[..i], s[i + 1..]);
    }
  }
}
