/** The allow-list test for outgoing requests (src/reliability/security.rs). */
module HostAllow {
  import opened Strings

  function LowerChar(c: char): char {
    if 'A' <= c <= 'Z' then c + ('a' - 'A') else c
  }

  /** `to_ascii_lowercase`: the 26 ASCII capitals change, nothing else does. */
  function Lower(s: string): (r: string)
    ensures |r| == |s|
    ensures forall i :: 0 <= i < |s| ==> r[i] == LowerChar(s[i])
  {
    if s == "" then "" else [LowerChar(s[0])] + Lower(s[1..])
  }

  /** One turn of the loop over patterns, on a host that is already in lower case. */
  predicate PatternMatches(hostLower: string, pattern: string) {
    if pattern == "*" then true
    else
      var patternLower := Lower(pattern);
      if "*." <= patternLower then
        var suffix := patternLower[2..];
        EndsWith(hostLower, "." + suffix) || hostLower == suffix
      else
        patternLower == hostLower
  }

  predicate IsHttpHostAllowed(host: string, allowedPatterns: seq<string>) {
    AnyMatches(Lower(host), allowedPatterns)
  }

  predicate AnyMatches(hostLower: string, patterns: seq<string>) {
    patterns != [] && (PatternMatches(hostLower, patterns[0]) || AnyMatches(hostLower, patterns[1..]))
  }

  // ---- Reference reading: dot-separated labels ----

  function Labels(name: string): seq<string> {
    Split(name, '.')
  }

  ghost predicate IsLabelSuffix(suffix: seq<string>, labels: seq<string>) {
    exists front :: front + suffix == labels
  }

  /** What a pattern means: any host; a domain and everything below it; or exactly one name. */
  ghost predicate PatternAdmits(host: string, pattern: string) {
    if pattern == "*" then true
    else if "*." <= pattern then IsLabelSuffix(Labels(Lower(pattern[2..])), Labels(Lower(host)))
    else Labels(Lower(pattern)) == Labels(Lower(host))
  }

  /** The two character tests for a wildcard are together one test on label sequences. */
  lemma WildcardIsLabelSuffix(host: string, suffix: string)
    ensures (EndsWith(host, "." + suffix) || host == suffix)
        <==> IsLabelSuffix(Labels(suffix), Labels(host))
  {
    if host == suffix {
      assert [] + Labels(suffix) == Labels(host);
    } else if EndsWith(host, "." + suffix) {
      var front := host[..|host| - |suffix| - 1];
      assert host == front + ("." + suffix) == front + ['.'] + suffix;
      SplitConcat(front, suffix, '.');
    }
    if IsLabelSuffix(Labels(suffix), Labels(host)) {
      var front :| front + Labels(suffix) == Labels(host);
      JoinSplit(host, '.');
      JoinSplit(suffix, '.');
      if front == [] {
        assert front + Labels(suffix) == Labels(suffix);
      } else {
        JoinConcat(front, Labels(suffix), '.');
        var head := Join(front, '.');
        assert host == head + ("." + suffix);
        assert host[|head|..] == "." + suffix;
      }
    }
  }

  lemma SameLabelsSameName(a: string, b: string)
    ensures Labels(a) == Labels(b) <==> a == b
  {
    JoinSplit(a, '.');
    JoinSplit(b, '.');
  }

  lemma LowerOfWildcard(pattern: string)
    ensures "*." <= Lower(pattern) <==> "*." <= pattern
    ensures "*." <= pattern ==> Lower(pattern)[2..] == Lower(pattern[2..])
    ensures Lower(pattern) == "*" <==> pattern == "*"
  {
    if "*." <= Lower(pattern) {
      assert Lower(pattern)[0] == '*' && Lower(pattern)[1] == '.';
      assert pattern[..2] == "*.";
    }
    if "*." <= pattern {
      assert pattern[0] == '*' && pattern[1] == '.';
      assert Lower(pattern)[..2] == "*.";
    }
    if Lower(pattern) == "*" {
      assert Lower(pattern)[0] == '*';
      assert pattern == [pattern[0]];
    }
  }

  lemma PatternMatchesMeaning(host: string, pattern: string)
    ensures PatternMatches(Lower(host), pattern) <==> PatternAdmits(host, pattern)
  {
    LowerOfWildcard(pattern);
    if "*." <= pattern {
      WildcardIsLabelSuffix(Lower(host), Lower(pattern[2..]));
    } else {
      SameLabelsSameName(Lower(pattern), Lower(host));
    }
  }

  /** The whole decision: some pattern admits the host, read label by label. */
  lemma {:induction false} AllowedIffAdmitted(host: string, patterns: seq<string>)
    ensures IsHttpHostAllowed(host, patterns) <==> exists p :: p in patterns && PatternAdmits(host, p)
  {
    if patterns != [] {
      PatternMatchesMeaning(host, patterns[0]);
      AllowedIffAdmitted(host, patterns[1..]);
      assert patterns == [patterns[0]] + patterns[1..];
    }
  }

  lemma AdmitsIgnoresCase(host: string, host': string, pattern: string, pattern': string)
    requires Lower(host) == Lower(host') && Lower(pattern) == Lower(pattern')
    ensures PatternAdmits(host, pattern) <==> PatternAdmits(host', pattern')
  {
    LowerOfWildcard(pattern);
    LowerOfWildcard(pattern');
  }

  /** `x` is the ASCII capital of the letter `y`. */
  predicate CapitalOf(x: char, y: char) {
    'A' <= x <= 'Z' && y as int == x as int + 32
  }

  /** The same text, but for the case of ASCII letters. */
  predicate SameUpToCase(a: string, b: string) {
    && |a| == |b|
    && forall i :: 0 <= i < |a| ==> a[i] == b[i] || CapitalOf(a[i], b[i]) || CapitalOf(b[i], a[i])
  }

  lemma LowerCharEqIff(x: char, y: char)
    ensures LowerChar(x) == LowerChar(y) <==> x == y || CapitalOf(x, y) || CapitalOf(y, x)
  {
  }

  /** Lower case folds exactly the ASCII capitals onto their letters, and nothing else onto anything. */
  lemma LowerEqIff(a: string, b: string)
    ensures Lower(a) == Lower(b) <==> SameUpToCase(a, b)
  {
    forall i | 0 <= i < |a| && i < |b|
      ensures Lower(a)[i] == Lower(b)[i] <==> a[i] == b[i] || CapitalOf(a[i], b[i]) || CapitalOf(b[i], a[i])
    {
      LowerCharEqIff(a[i], b[i]);
    }
    if Lower(a) == Lower(b) {
      assert |a| == |Lower(a)| == |b|;
    }
  }

  /** ASCII case never changes the answer, neither in the host nor in any pattern. */
  lemma CaseInvariant(host: string, host': string, patterns: seq<string>, patterns': seq<string>)
    requires SameUpToCase(host, host')
    requires |patterns| == |patterns'|
    requires forall i :: 0 <= i < |patterns| ==> SameUpToCase(patterns[i], patterns'[i])
    ensures IsHttpHostAllowed(host, patterns) <==> IsHttpHostAllowed(host', patterns')
  {
    AllowedIffAdmitted(host, patterns);
    AllowedIffAdmitted(host', patterns');
    forall i | 0 <= i < |patterns|
      ensures PatternAdmits(host, patterns[i]) <==> PatternAdmits(host', patterns'[i])
    {
      LowerEqIff(host, host');
      LowerEqIff(patterns[i], patterns'[i]);
      AdmitsIgnoresCase(host, host', patterns[i], patterns'[i]);
    }
    if p :| p in patterns && PatternAdmits(host, p) {
      var i :| 0 <= i < |patterns| && patterns[i] == p;
      assert patterns'[i] in patterns';
    }
    if p :| p in patterns' && PatternAdmits(host', p) {
      var i :| 0 <= i < |patterns'| && patterns'[i] == p;
      assert patterns[i] in patterns;
    }
  }

  /** More patterns never forbid a host; order and repetition of patterns do not matter. */
  lemma MonotoneInPatterns(host: string, patterns: seq<string>, more: seq<string>)
    requires forall p :: p in patterns ==> p in more
    requires IsHttpHostAllowed(host, patterns)
    ensures IsHttpHostAllowed(host, more)
  {
    AllowedIffAdmitted(host, patterns);
    AllowedIffAdmitted(host, more);
  }
}
