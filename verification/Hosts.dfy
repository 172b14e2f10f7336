/** Canonical host normalisation, for ASCII targets without `xn--` labels. */
module Hosts {
  import opened Text

  /** The part after the first occurrence of `c`; the whole string if there is none. */
  function After(c: char, s: string): string {
    if c !in s then s else if s[0] == c then s[1..] else After(c, s[1..])
  }

  /** The part before the first occurrence of `c`; the whole string if there is none. */
  function Before(c: char, s: string): string {
    if s == "" || s[0] == c then "" else [s[0]] + Before(c, s[1..])
  }

  /** The part before the last occurrence of `c`. */
  function BeforeLast(c: char, s: string): string
    requires c in s
  {
    if s[|s| - 1] == c then s[..|s| - 1] else BeforeLast(c, s[..|s| - 1])
  }

  function StripScheme(s: string): string {
    if |s| >= 7 && Lower(s[..7]) == "http://" then s[7..]
    else if |s| >= 8 && Lower(s[..8]) == "https://" then s[8..]
    else s
  }

  predicate AllDigits(s: string) { forall i :: 0 <= i < |s| ==> '0' <= s[i] <= '9' }

  predicate Contains(s: string, pattern: string) {
    pattern <= s || (s != "" && Contains(s[1..], pattern))
  }

  /** A bracketed address with a port. */
  predicate BracketedPort(s: string) { StartsWith(s, "[") && Contains(s, "]:") }

  /** One colon, followed by digits. */
  predicate SinglePort(s: string) {
    ':' in s && multiset(s)[':'] == 1 && After(':', s) != "" && AllDigits(After(':', s))
  }

  predicate HasPort(s: string) { ':' in s && (BracketedPort(s) || SinglePort(s)) }

  function StripPort(s: string): string { if HasPort(s) then BeforeLast(':', s) else s }

  /** The host with its port, out of a URL-like target. */
  function HostPort(target: string): string { Before('/', After('@', StripScheme(target))) }

  function NormalizeHost(target: string): string {
    TrimEndChar(Lower(StripPort(HostPort(target))), '.')
  }

  /** The source's rewriting, step by step; what comes out has no path, is in lower case and has no final
      dot. */
  method Normalize(target: string) returns (out: string)
    ensures out == NormalizeHost(target)
    ensures '/' !in out && Lower(out) == out && TrimEndChar(out, '.') == out
  {
    hide HasPort, After, Before, BeforeLast, Lower, TrimEndChar;
    HasPortHasColon(Before('/', After('@', StripScheme(target))));
    KeyShape(target);
    var s := target;
    if |s| >= 7 && Lower(s[..7]) == "http://" {
      s := s[7..];
    } else if |s| >= 8 && Lower(s[..8]) == "https://" {
      s := s[8..];
    }
    s := After('@', s);
    s := Before('/', s);
    if HasPort(s) {
      s := BeforeLast(':', s);
    }
    out := Lower(s);
    out := TrimEndChar(out, '.');
  }

  // ---- When normalising again changes nothing ----

  lemma {:induction false} BeforeClean(c: char, s: string)
    ensures c !in Before(c, s)
    ensures forall d :: d in Before(c, s) ==> d in s
  {
    if s != "" && s[0] != c {
      BeforeClean(c, s[1..]);
    }
  }

  lemma {:induction false} BeforeKeeps(c: char, s: string)
    requires c !in s
    ensures Before(c, s) == s
  {
    if s != "" {
      BeforeKeeps(c, s[1..]);
    }
  }

  lemma {:induction false} AfterShorter(c: char, s: string)
    requires c in s
    ensures |After(c, s)| < |s|
  {
    if s[0] != c {
      AfterShorter(c, s[1..]);
    }
  }

  lemma {:induction false} BeforeShorter(c: char, s: string)
    ensures |Before(c, s)| <= |s|
  {
    if s != "" && s[0] != c {
      BeforeShorter(c, s[1..]);
    }
  }

  lemma {:induction false} BeforeLastPrefix(c: char, s: string)
    requires c in s
    ensures BeforeLast(c, s) <= s && |BeforeLast(c, s)| < |s|
  {
    if s[|s| - 1] != c {
      BeforeLastPrefix(c, s[..|s| - 1]);
    }
  }

  lemma {:induction false} TrimPrefix(s: string, c: char)
    ensures TrimEndChar(s, c) <= s
    ensures TrimEndChar(s, c) == "" || TrimEndChar(s, c)[|TrimEndChar(s, c)| - 1] != c
  {
    if s != "" && s[|s| - 1] == c {
      TrimPrefix(s[..|s| - 1], c);
    }
  }

  lemma NoSchemeWithoutSlash(s: string)
    requires '/' !in s
    ensures StripScheme(s) == s
  {
    if |s| >= 7 {
      assert LowerChar(s[5]) == Lower(s[..7])[5];
      assert "http://"[5] == '/';
    }
    if |s| >= 8 {
      assert LowerChar(s[6]) == Lower(s[..8])[6];
      assert "https://"[6] == '/';
    }
  }

  lemma LowerKeeps(s: string, c: char)
    requires !('a' <= c <= 'z') && !('A' <= c <= 'Z')
    ensures c in Lower(s) <==> c in s
  {
    if c in s {
      var i :| 0 <= i < |s| && s[i] == c;
      assert Lower(s)[i] == c;
    }
  }

  lemma {:induction false} TrimIdempotent(s: string, c: char)
    ensures TrimEndChar(TrimEndChar(s, c), c) == TrimEndChar(s, c)
  {
    TrimPrefix(s, c);
  }

  lemma LowerPrefix(s: string, t: string)
    requires s <= Lower(t)
    ensures Lower(s) == s
  {
  }

  /** A key holds no path, is in lower case and has no trailing dot. */
  lemma KeyShape(target: string)
    ensures var key := NormalizeHost(target);
            '/' !in key && Lower(key) == key && TrimEndChar(key, '.') == key
  {
    hide HasPort, StripScheme, Before, After, Lower, TrimEndChar;
    var host := HostPort(target);
    var stripped := StripPort(host);
    BeforeClean('/', After('@', StripScheme(target)));
    HasPortHasColon(host);
    if HasPort(host) {
      BeforeLastPrefix(':', host);
    }
    LowerKeeps(stripped, '/');
    TrimPrefix(Lower(stripped), '.');
    TrimIdempotent(Lower(stripped), '.');
    LowerPrefix(TrimEndChar(Lower(stripped), '.'), stripped);
  }

  /** A key is its own key exactly when it holds no '@' and does not end in what reads as a port. */
  lemma KeyFixedIff(target: string)
    ensures var key := NormalizeHost(target);
            NormalizeHost(key) == key <==> '@' !in key && !HasPort(key)
  {
    hide HasPort, StripScheme;
    var key := NormalizeHost(target);
    KeyShape(target);
    NoSchemeWithoutSlash(key);
    if '@' in key {
      AfterShorter('@', key);
      NotLonger(After('@', key));
    } else {
      BeforeKeeps('/', key);
      HasPortHasColon(key);
      if HasPort(key) {
        BeforeLastPrefix(':', key);
        TrimPrefix(Lower(BeforeLast(':', key)), '.');
      }
    }
  }

  // ---- The same, said of the target ----

  /** An '@' is left behind the one taken for the end of the user information. */
  predicate SecondAt(host: string) { '@' in StripPort(host) }

  /** Dots behind a port that stands alone hide it from the first pass. */
  predicate DottedPort(host: string) {
    EndsWith(host, ".") && !BracketedPort(host) && SinglePort(TrimEndChar(host, '.'))
  }

  /** Of a bracketed address only the last port is taken off. */
  predicate TwoPorts(host: string) {
    BracketedPort(host) && ':' in host && BracketedPort(BeforeLast(':', host))
  }

  /** Normalising twice is normalising once exactly when the host part of the target is in none of
      three families. */
  lemma IdempotentIff(target: string)
    ensures var host := HostPort(target);
            NormalizeHost(NormalizeHost(target)) == NormalizeHost(target)
            <==> !SecondAt(host) && !DottedPort(host) && !TwoPorts(host)
  {
    hide HasPort, HostPort, Lower, TrimEndChar, BracketedPort, SinglePort;
    var host := HostPort(target);
    var s := StripPort(host);
    KeyFixedIff(target);
    TrimLower(s);
    LowerKeeps(TrimEndChar(s, '.'), '@');
    TrimKeepsOthers(s, '.', '@');
    HasPortLower(TrimEndChar(s, '.'));
    if HasPort(host) {
      HasPortHasColon(host);
      StrippedAgain(host);
    } else {
      UnstrippedAgain(host);
    }
  }

  lemma {:induction false} TrimLower(s: string)
    ensures TrimEndChar(Lower(s), '.') == Lower(TrimEndChar(s, '.'))
  {
    if s != "" {
      var last := |s| - 1;
      assert Lower(s)[..last] == Lower(s[..last]);
      if s[last] == '.' {
        TrimLower(s[..last]);
      }
    }
  }

  lemma {:induction false} TrimKeepsOthers(s: string, c: char, d: char)
    requires c != d
    ensures d in TrimEndChar(s, c) <==> d in s
    ensures multiset(TrimEndChar(s, c))[d] == multiset(s)[d]
  {
    if s != "" && s[|s| - 1] == c {
      TrimKeepsOthers(s[..|s| - 1], c, d);
      assert s == s[..|s| - 1] + [c];
    }
  }

  lemma {:induction false} ContainsLower(s: string)
    ensures Contains(Lower(s), "]:") <==> Contains(s, "]:")
  {
    if s != "" {
      ContainsLower(s[1..]);
      assert Lower(s)[1..] == Lower(s[1..]);
    }
    assert "]:" <= s <==> |s| >= 2 && s[0] == ']' && s[1] == ':';
    assert "]:" <= Lower(s) <==> |s| >= 2 && Lower(s)[0] == ']' && Lower(s)[1] == ':';
  }

  lemma {:induction false} AfterLower(s: string)
    ensures After(':', Lower(s)) == Lower(After(':', s))
  {
    LowerKeeps(s, ':');
    if s != "" {
      AfterLower(s[1..]);
      assert Lower(s)[1..] == Lower(s[1..]);
    }
  }

  lemma {:induction false} ColonsLower(s: string)
    ensures multiset(Lower(s))[':'] == multiset(s)[':']
  {
    if s != "" {
      var init, last := s[..|s| - 1], s[|s| - 1];
      ColonsLower(init);
      assert s == init + [last];
      assert Lower(s) == Lower(init) + [LowerChar(last)];
    }
  }

  lemma DigitsLower(s: string)
    ensures AllDigits(Lower(s)) <==> AllDigits(s)
  {
    forall i | 0 <= i < |s|
      ensures '0' <= Lower(s)[i] <= '9' <==> '0' <= s[i] <= '9'
    {
    }
  }

  lemma HasPortLower(s: string)
    ensures HasPort(Lower(s)) <==> HasPort(s)
  {
    hide Contains, After, AllDigits;
    LowerKeeps(s, ':');
    ContainsLower(s);
    AfterLower(s);
    ColonsLower(s);
    DigitsLower(After(':', s));
    assert StartsWith(s, "[") <==> s != "" && s[0] == '[';
    assert StartsWith(Lower(s), "[") <==> s != "" && Lower(s)[0] == '[';
  }

  lemma {:induction false} ContainsTrim(s: string)
    ensures Contains(TrimEndChar(s, '.'), "]:") <==> Contains(s, "]:")
  {
    if s != "" && s[|s| - 1] == '.' {
      ContainsTrim(s[..|s| - 1]);
      ContainsInit(s);
    }
  }

  lemma {:induction false} ContainsInit(s: string)
    requires s != "" && s[|s| - 1] != ':'
    ensures Contains(s[..|s| - 1], "]:") <==> Contains(s, "]:")
  {
    assert "]:" <= s <==> |s| >= 2 && s[0] == ']' && s[1] == ':';
    if |s| > 1 {
      ContainsInit(s[1..]);
      assert s[..|s| - 1][1..] == s[1..][..|s| - 2];
      assert "]:" <= s[..|s| - 1] <==> |s| >= 3 && s[0] == ']' && s[1] == ':';
    }
  }

  lemma BracketedTrim(s: string)
    ensures BracketedPort(TrimEndChar(s, '.')) <==> BracketedPort(s)
  {
    hide Contains, TrimEndChar;
    ContainsTrim(s);
    TrimPrefix(s, '.');
    TrimKeepsOthers(s, '.', '[');
    var trimmed := TrimEndChar(s, '.');
    assert StartsWith(s, "[") <==> s != "" && s[0] == '[';
    assert StartsWith(trimmed, "[") <==> trimmed != "" && trimmed[0] == '[';
  }

  /** A port that was not taken off is taken off later only if dots hid it. */
  lemma UnstrippedAgain(host: string)
    requires !HasPort(host)
    ensures HasPort(TrimEndChar(host, '.')) <==> DottedPort(host)
    ensures !TwoPorts(host)
  {
    hide Contains, After, AllDigits;
    var trimmed := TrimEndChar(host, '.');
    BracketedTrim(host);
    BracketedHasColon(host);
    BracketedHasColon(trimmed);
    assert EndsWith(host, ".") <==> host != "" && host[|host| - 1] == '.';
  }

  lemma {:induction false} ContainsColon(s: string)
    ensures Contains(s, "]:") ==> ':' in s
  {
    if "]:" <= s {
      assert s[1] == ':';
    } else if s != "" {
      ContainsColon(s[1..]);
    }
  }

  lemma BracketedHasColon(s: string)
    ensures BracketedPort(s) ==> ':' in s
  {
    ContainsColon(s);
  }

  /** Once a port has been taken off, another is left only behind a bracketed address. */
  lemma StrippedAgain(host: string)
    requires HasPort(host) && ':' in host
    ensures HasPort(TrimEndChar(BeforeLast(':', host), '.')) <==> TwoPorts(host)
    ensures !DottedPort(host)
  {
    hide BracketedPort, SinglePort, TrimEndChar;
    var rest := BeforeLast(':', host);
    var trimmed := TrimEndChar(rest, '.');
    BracketedTrim(rest);
    BracketedHasColon(trimmed);
    TrimKeepsOthers(rest, '.', ':');
    PortNotDotted(host);
    if !BracketedPort(host) {
      OneColonGone(host);
      SinglePortHasColon(trimmed);
      BracketedHasColon(rest);
    } else if !BracketedPort(rest) {
      NoPortInside(host);
    }
  }

  lemma SinglePortHasColon(s: string)
    ensures SinglePort(s) ==> ':' in s
  {
  }

  lemma {:induction false} BeforeLastSplits(c: char, s: string)
    requires c in s
    ensures exists tail :: s == BeforeLast(c, s) + [c] + tail && c !in tail
  {
    if s[|s| - 1] == c {
      assert s == BeforeLast(c, s) + [c] + "";
    } else {
      var init := s[..|s| - 1];
      BeforeLastSplits(c, init);
      var tail :| init == BeforeLast(c, init) + [c] + tail && c !in tail;
      assert s == BeforeLast(c, s) + [c] + (tail + [s[|s| - 1]]);
    }
  }

  lemma OneColonGone(host: string)
    requires ':' in host && SinglePort(host)
    ensures ':' !in BeforeLast(':', host)
  {
    hide After, AllDigits, BeforeLast;
    BeforeLastSplits(':', host);
    var rest := BeforeLast(':', host);
    var tail :| host == rest + [':'] + tail && ':' !in tail;
    assert multiset(host) == multiset(rest) + multiset{':'} + multiset(tail);
  }

  lemma {:induction false} AfterIsTail(c: char, s: string)
    requires c in s
    ensures After(c, s) != "" ==> After(c, s)[|After(c, s)| - 1] == s[|s| - 1]
  {
    if s[0] != c {
      AfterIsTail(c, s[1..]);
    }
  }

  /** What ends in a port does not end in a dot. */
  lemma PortNotDotted(host: string)
    requires HasPort(host)
    ensures !DottedPort(host)
  {
    hide Contains, After, TrimEndChar;
    if SinglePort(host) {
      AfterIsTail(':', host);
    }
  }

  /** In front of the last colon of a bracketed address with one port there is no single port. */
  lemma NoPortInside(host: string)
    requires BracketedPort(host) && ':' in host && !BracketedPort(BeforeLast(':', host))
    ensures !SinglePort(TrimEndChar(BeforeLast(':', host), '.'))
  {
    hide Contains, BeforeLast, After, TrimEndChar;
    var rest := BeforeLast(':', host);
    BeforeLastSplits(':', host);
    var tail :| host == rest + [':'] + tail && ':' !in tail;
    BracketBeforeColon(rest, tail);
    assert rest[|rest| - 1] == ']';
    assert TrimEndChar(rest, '.') == rest by { TrimNothing(rest); }
    if SinglePort(rest) {
      AfterIsTail(':', rest);
    }
  }

  lemma TrimNothing(s: string)
    requires s != "" && s[|s| - 1] != '.'
    ensures TrimEndChar(s, '.') == s
  {
  }

  lemma {:induction false} ContainsAcross(rest: string, tail: string)
    requires ':' !in tail && Contains(rest + [':'] + tail, "]:")
    ensures Contains(rest, "]:") || (rest != "" && rest[|rest| - 1] == ']')
  {
    var s := rest + [':'] + tail;
    if rest == "" {
      assert s[0] == ':' && s[1..] == tail;
      ContainsColon(tail);
    } else if !("]:" <= s) {
      assert s[1..] == rest[1..] + [':'] + tail;
      ContainsAcross(rest[1..], tail);
    } else if |rest| > 1 {
      assert rest[0] == s[0] && rest[1] == s[1];
      assert "]:" <= rest;
    } else {
      assert rest[0] == s[0] == "]:"[0];
    }
  }

  lemma BracketBeforeColon(rest: string, tail: string)
    requires ':' !in tail && BracketedPort(rest + [':'] + tail) && !BracketedPort(rest)
    ensures rest != "" && rest[|rest| - 1] == ']'
  {
    hide Contains;
    ContainsAcross(rest, tail);
    assert (rest + [':'] + tail)[0] == '[';
    if rest != "" {
      assert rest[0] == '[';
    }
  }

  // ---- What the second pass makes of a key ----

  lemma {:induction false} AfterSuffix(c: char, s: string)
    ensures |After(c, s)| <= |s| && s[|s| - |After(c, s)|..] == After(c, s)
    ensures c in s ==> |After(c, s)| < |s| && s[|s| - |After(c, s)| - 1] == c
  {
    if c in s && s[0] != c {
      AfterSuffix(c, s[1..]);
    }
  }

  lemma LowerSlice(s: string, at: nat)
    requires at <= |s| && Lower(s) == s
    ensures Lower(s[at..]) == s[at..] && Lower(s[..at]) == s[..at]
  {
    forall i | 0 <= i < |s|
      ensures LowerChar(s[i]) == s[i]
    {
      assert Lower(s)[i] == s[i];
    }
  }

  /** A key loses what stands in front of an '@', then a port. */
  lemma SecondPass(target: string)
    ensures var key := NormalizeHost(target);
            var rest := After('@', key);
            NormalizeHost(key) == if HasPort(rest) then TrimEndChar(BeforeLast(':', rest), '.') else rest
  {
    hide HasPort, StripScheme, Lower, BeforeLast, TrimEndChar;
    var key := NormalizeHost(target);
    var rest := After('@', key);
    KeyShape(target);
    TrimPrefix(key, '.');
    NoSchemeWithoutSlash(key);
    AfterSuffix('@', key);
    LowerSlice(key, |key| - |rest|);
    BeforeKeeps('/', rest);
    HasPortHasColon(rest);
    if HasPort(rest) {
      BeforeLastPrefix(':', rest);
      var front := BeforeLast(':', rest);
      LowerSlice(rest, |front|);
      assert rest[..|front|] == front;
    } else {
      KeepsEnd(rest, key);
    }
  }

  lemma KeepsEnd(rest: string, key: string)
    requires |rest| <= |key| && key[|key| - |rest|..] == rest
    requires key == "" || key[|key| - 1] != '.'
    ensures TrimEndChar(rest, '.') == rest
  {
    if rest != "" {
      assert rest[|rest| - 1] == key[|key| - 1];
    }
  }

  // ---- What normalising finds in a target ----

  /** A name or IPv4 address. */
  predicate PlainHost(host: string) { '@' !in host && '/' !in host && ':' !in host && '[' !in host }

  /** An IPv6 address in brackets. */
  predicate BracketedHost(host: string) {
    && |host| >= 2 && host[0] == '[' && host[|host| - 1] == ']'
    && '@' !in host && '/' !in host && ']' !in host[..|host| - 1]
  }

  /** An IPv6 address without brackets: nothing behind it is a port. */
  predicate BareAddress(host: string) {
    '@' !in host && '/' !in host && '[' !in host && multiset(host)[':'] >= 2
  }

  predicate Port(port: string) { |port| >= 2 && port[0] == ':' && AllDigits(port[1..]) }

  predicate Authority(host: string, port: string) {
    if port == "" then PlainHost(host) || BracketedHost(host) || BareAddress(host)
    else Port(port) && (PlainHost(host) || BracketedHost(host))
  }

  lemma AuthorityStripped(host: string, port: string)
    requires Authority(host, port)
    ensures StripPort(host + port) == host
    ensures '@' !in host + port && '/' !in host + port
  {
    hide AllDigits, Contains, After, BeforeLast;
    if port == "" {
      assert host + port == host;
      if BracketedHost(host) {
        NoPortInBrackets(host);
      } else {
        NoPortInPlain(host);
      }
    } else {
      PortDigits(port);
      assert port == [':'] + port[1..];
      assert host + port == host + [':'] + port[1..];
      BeforeLastJoined(':', host, port[1..]);
      assert (host + port)[|host|] == ':';
      if PlainHost(host) {
        OnePort(host, port[1..]);
      } else {
        PortBehindBrackets(host, port);
      }
    }
  }

  lemma PortDigits(port: string)
    requires Port(port)
    ensures '@' !in port && '/' !in port && ':' !in port[1..]
  {
    assert port == [':'] + port[1..];
  }

  lemma NoPortInPlain(host: string)
    requires PlainHost(host) || BareAddress(host)
    ensures !HasPort(host)
  {
    hide Contains, After, AllDigits;
    assert StartsWith(host, "[") <==> host != "" && host[0] == '[';
  }

  lemma {:induction false} ContainsBracket(s: string)
    requires s != "" && ']' !in s[..|s| - 1]
    ensures !Contains(s, "]:")
  {
    assert "]:" <= s ==> s[0] == ']' && |s| >= 2;
    assert |s| >= 2 ==> s[0] in s[..|s| - 1];
    if |s| > 1 {
      assert s[1..][..|s| - 2] == s[..|s| - 1][1..];
      ContainsBracket(s[1..]);
    } else {
      assert s[1..] == "";
    }
  }

  lemma NoPortInBrackets(host: string)
    requires BracketedHost(host)
    ensures !HasPort(host)
  {
    hide Contains, After;
    ContainsBracket(host);
    if ':' in host {
      AfterIsTail(':', host);
    }
  }

  lemma {:induction false} ContainsJoined(a: string, b: string, pattern: string)
    requires pattern <= b
    ensures Contains(a + b, pattern)
  {
    if a == "" {
      assert a + b == b;
    } else {
      ContainsJoined(a[1..], b, pattern);
      assert (a + b)[1..] == a[1..] + b;
    }
  }

  lemma PortBehindBrackets(host: string, port: string)
    requires BracketedHost(host) && Port(port)
    ensures HasPort(host + port)
  {
    hide Contains, SinglePort, AllDigits;
    var last := |host| - 1;
    ContainsJoined(host[..last], host[last..] + port, "]:");
    assert host + port == host[..last] + (host[last..] + port);
    assert (host + port)[|host|] == ':';
  }

  predicate Scheme(scheme: string) { scheme == "" || Lower(scheme) == "http://" || Lower(scheme) == "https://" }

  /** User information with the '@' behind it. */
  predicate UserInfo(user: string) {
    user == "" || (user[|user| - 1] == '@' && '@' !in user[..|user| - 1] && '/' !in user)
  }

  /** Whatever scheme, user information, port, path and trailing dots surround it, a target comes down to its host
      in lower case. */
  lemma HostRecovered(scheme: string, user: string, host: string, port: string, path: string)
    requires Scheme(scheme) && UserInfo(user) && Authority(host, port)
    requires path == "" || path[0] == '/'
    requires user == "" ==> '@' !in path
    ensures NormalizeHost(scheme + (user + (host + port + path))) == TrimEndChar(Lower(host), '.')
  {
    hide Lower, StripPort, StripScheme, After, Before, TrimEndChar, Authority;
    var authority := host + port;
    AuthorityStripped(host, port);
    SchemeStripped(scheme, user, host, port, path);
    UserStripped(user, authority + path);
    assert user == "" ==> '@' !in authority + path;
    PathStripped(authority, path);
  }

  lemma {:induction false} PathStripped(authority: string, path: string)
    requires '/' !in authority && (path == "" || path[0] == '/')
    ensures Before('/', authority + path) == authority
  {
    if authority != "" {
      PathStripped(authority[1..], path);
      assert (authority + path)[1..] == authority[1..] + path;
    }
  }

  lemma UserStripped(user: string, rest: string)
    requires UserInfo(user) && (user == "" ==> '@' !in rest)
    ensures After('@', user + rest) == rest
  {
    if user == "" {
      NoAfter(rest);
      assert user + rest == rest;
    } else {
      AfterJoined('@', user[..|user| - 1], rest);
      assert user + rest == user[..|user| - 1] + ['@'] + rest;
    }
  }

  /** A scheme ends in its first slash but one. */
  lemma NoScheme(authority: string, path: string)
    requires '/' !in authority && (path == "" || path[0] == '/')
    requires Lower(authority) != "http:" && Lower(authority) != "https:"
    ensures StripScheme(authority + path) == authority + path
  {
    var s := authority + path;
    SlashAt(authority, path, "http:");
    SlashAt(authority, path, "https:");
  }

  lemma SlashAt(authority: string, path: string, name: string)
    requires '/' !in authority && (path == "" || path[0] == '/')
    requires '/' !in name && Lower(authority) != name
    ensures var s := authority + path;
            |s| < |name| + 2 || Lower(s[..|name| + 2]) != name + "//"
  {
    var s, n := authority + path, |name|;
    if |s| >= n + 2 {
      var start, scheme := Lower(s[..n + 2]), name + "//";
      if |authority| < n {
        assert start[|authority|] == '/';
        assert scheme[|authority|] in name;
      } else if |authority| > n {
        assert s[n] in authority;
        assert start[n] != '/' == scheme[n];
      } else {
        assert start[..n] == Lower(authority) && scheme[..n] == name;
      }
    }
  }

  lemma AuthorityIsNoScheme(user: string, host: string, port: string)
    requires UserInfo(user) && Authority(host, port)
    ensures Lower(user + (host + port)) != "http:" && Lower(user + (host + port)) != "https:"
  {
    hide Lower;
    var authority := user + (host + port);
    LowerKeeps(authority, '@');
    if user != "" {
      assert authority[|user| - 1] == '@';
    } else if port != "" {
      assert authority == host + port;
      LowerLast(authority);
      assert authority[|authority| - 1] == port[1..][|port| - 2];
    } else {
      assert authority == host;
      HostIsNoScheme(host);
    }
  }

  lemma LowerLast(s: string)
    requires s != "" && s[|s| - 1] != ':'
    ensures Lower(s) != "" && Lower(s)[|s| - 1] != ':'
  {
  }

  lemma HostIsNoScheme(host: string)
    requires PlainHost(host) || BracketedHost(host) || BareAddress(host)
    ensures Lower(host) != "http:" && Lower(host) != "https:"
  {
    ColonsLower(host);
    LowerKeeps(host, ':');
    LowerKeeps(host, '[');
    assert multiset("http:")[':'] == 1 && multiset("https:")[':'] == 1;
  }

  lemma SchemeStripped(scheme: string, user: string, host: string, port: string, path: string)
    requires Scheme(scheme) && UserInfo(user) && Authority(host, port)
    requires path == "" || path[0] == '/'
    ensures StripScheme(scheme + (user + (host + port + path))) == user + (host + port + path)
  {
    hide Authority;
    var rest := user + (host + port + path);
    var s := scheme + rest;
    if scheme == "" {
      AuthorityIsNoScheme(user, host, port);
      AuthorityStripped(host, port);
      NoScheme(user + (host + port), path);
      assert s == user + (host + port) + path == rest;
    } else {
      assert s[..|scheme|] == scheme && s[|scheme|..] == rest;
      assert |Lower(scheme)| == |scheme|;
      if |scheme| == 8 && |s| >= 7 {
        assert Lower(s[..7]) == Lower(scheme)[..7];
        assert "https://"[4] == 's' && "http://"[4] == ':';
        assert Lower(s[..7])[4] == 's';
      }
    }
  }

  lemma HasPortHasColon(s: string)
    ensures HasPort(s) ==> ':' in s
  {
  }

  lemma NotLonger(s: string)
    ensures |TrimEndChar(Lower(StripPort(Before('/', s))), '.')| <= |s|
  {
    hide HasPort;
    var host := Before('/', s);
    BeforeShorter('/', s);
    HasPortHasColon(host);
    if HasPort(host) {
      BeforeLastPrefix(':', host);
    }
    TrimPrefix(Lower(StripPort(host)), '.');
  }

  /** Hosts without '@', '/' and ':' are normalised once and for all. */
  lemma PlainHostIdempotent(target: string)
    requires '@' !in target && '/' !in target && ':' !in target
    ensures NormalizeHost(NormalizeHost(target)) == NormalizeHost(target)
  {
    hide HasPort, Before, After;
    var key := NormalizeHost(target);
    NoSchemeWithoutSlash(target);
    NoAfter(target);
    BeforeKeeps('/', target);
    HasPortHasColon(target);
    HasPortHasColon(key);
    TrimPrefix(Lower(target), '.');
    LowerKeeps(target, '@');
    LowerKeeps(target, ':');
    KeyFixedIff(target);
  }

  lemma NoAfter(s: string)
    requires '@' !in s
    ensures After('@', s) == s
  {
  }

  /** The first pass on a target that has only a host and perhaps a port. */
  lemma BareTarget(target: string)
    requires '@' !in target && '/' !in target
    ensures HostPort(target) == target
  {
    NoSchemeWithoutSlash(target);
    NoAfter(target);
    BeforeKeeps('/', target);
  }

  lemma {:induction false} AfterJoined(c: char, a: string, b: string)
    requires c !in a
    ensures After(c, a + [c] + b) == b
  {
    if a != "" {
      AfterJoined(c, a[1..], b);
      assert (a + [c] + b)[1..] == a[1..] + [c] + b;
    }
  }

  lemma {:induction false} BeforeLastJoined(c: char, a: string, b: string)
    requires c !in b
    ensures BeforeLast(c, a + [c] + b) == a
  {
    var s := a + [c] + b;
    if b == "" {
      assert s[..|s| - 1] == a;
    } else {
      BeforeLastJoined(c, a, b[..|b| - 1]);
      assert s[..|s| - 1] == a + [c] + b[..|b| - 1];
    }
  }

  lemma {:induction false} ContainsLonger(s: string, t: string, pattern: string)
    requires Contains(s, pattern)
    ensures Contains(s + t, pattern)
  {
    if !(pattern <= s) {
      ContainsLonger(s[1..], t, pattern);
      assert (s + t)[1..] == s[1..] + t;
    }
  }

  lemma OnePort(host: string, tail: string)
    requires ':' !in host && '[' !in host && ':' !in tail && tail != ""
    ensures HasPort(host + [':'] + tail) <==> AllDigits(tail)
  {
    hide AllDigits, Contains, After;
    var s := host + [':'] + tail;
    AfterJoined(':', host, tail);
    assert s[|host|] == ':';
    assert s[0] != '[';
    assert multiset(s) == multiset(host) + multiset{':'} + multiset(tail);
  }

  /** A dot behind the port hides it from the first pass, and not from the second. */
  lemma DottedPortNotIdempotent(host: string, digits: string)
    requires '@' !in host && '/' !in host && ':' !in host && '[' !in host && Lower(host) == host
    requires digits != "" && AllDigits(digits)
    ensures var key := host + [':'] + digits;
            NormalizeHost(key + ".") == key && NormalizeHost(key) != key
  {
    hide StripScheme, HostPort, HasPort, AllDigits, Lower, TrimEndChar;
    var key := host + [':'] + digits;
    DigitsOnly(digits);
    BareTarget(key + ".");
    OnePort(host, digits);
    OnePort(host, digits + ".");
    assert key + "." == host + [':'] + (digits + ".");
    DottedTrim(key);
    LowerJoined(host, digits);
    KeyFixedIff(key + ".");
  }

  lemma PortStripped(host: string, digits: string)
    requires PlainHost(host) && digits != "" && AllDigits(digits)
    ensures NormalizeHost(host + [':'] + digits) == TrimEndChar(Lower(host), '.')
  {
    hide Lower, TrimEndChar, NormalizeHost, AllDigits;
    assert ([':'] + digits)[1..] == digits;
    HostRecovered("", "", host, [':'] + digits, "");
    assert "" + ("" + (host + ([':'] + digits) + "")) == host + [':'] + digits;
  }

  lemma DigitsOnly(digits: string)
    requires AllDigits(digits) && digits != ""
    ensures '@' !in digits && '/' !in digits && ':' !in digits && digits[|digits| - 1] != '.'
    ensures !AllDigits(digits + ".")
  {
    assert (digits + ".")[|digits|] == '.';
  }

  lemma LowerJoined(host: string, digits: string)
    requires Lower(host) == host && AllDigits(digits)
    ensures Lower(host + [':'] + digits) == host + [':'] + digits
    ensures Lower(host + [':'] + digits + ".") == host + [':'] + digits + "."
  {
    forall i | 0 <= i < |host|
      ensures LowerChar(host[i]) == host[i]
    {
      assert Lower(host)[i] == host[i];
    }
  }

  lemma DottedTrim(key: string)
    requires key != "" && key[|key| - 1] != '.'
    ensures TrimEndChar(key + ".", '.') == key
  {
    assert (key + ".")[..|key|] == key;
  }

  /** Only the first '@' is taken for the end of the user information. */
  lemma SecondAtNotIdempotent()
    ensures NormalizeHost("a@b@c") == "b@c" && NormalizeHost("b@c") != "b@c"
  {
    hide HasPort;
    var target, key := "a@b@c", "b@c";
    NoSchemeWithoutSlash(target);
    assert After('@', target) == key by {
      assert target[1..] == "@b@c";
      assert "@b@c"[1..] == key;
    }
    BeforeKeeps('/', key);
    HasPortHasColon(key);
    assert Lower(key) == key;
    KeyFixedIff(target);
  }

  /** Of a bracketed form only the last port is taken off. */
  lemma BracketedPortsNotIdempotent(key: string, port: string)
    requires BracketedPort(key) && Lower(key) == key && key[|key| - 1] != '.'
    requires '@' !in key && '/' !in key && ':' in key
    requires '@' !in port && '/' !in port && ':' !in port
    ensures NormalizeHost(key + [':'] + port) == key && NormalizeHost(key) != key
  {
    hide StripScheme, HostPort, HasPort, BeforeLast, TrimEndChar, Lower;
    var target := key + [':'] + port;
    BareTarget(target);
    BracketedHasPort(key, port);
    BeforeLastJoined(':', key, port);
    TrimNothing(key);
    KeyFixedIff(target);
  }

  lemma BracketedHasPort(key: string, port: string)
    requires BracketedPort(key) && ':' in key
    ensures HasPort(key) && HasPort(key + [':'] + port)
  {
    hide Contains, SinglePort;
    ContainsLonger(key, [':'] + port, "]:");
    assert key + ([':'] + port) == key + [':'] + port;
    assert (key + [':'] + port)[|key|] == ':';
    assert (key + [':'] + port)[0] == key[0];
  }
}
