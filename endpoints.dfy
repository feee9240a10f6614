/**
 * Endpoint fan-out (barista.py lines 41-53): every configured machine URL is
 * rewritten once per address its host name resolves to, replacing only the
 * network location (the authority of section 3.2 of RFC 3986) by `ip` or
 * `ip:port`, and the results are flattened into one list.
 */
module Endpoints {
  import opened Options

  /** The fields of urlparse's result that the fan-out reads or copies. */
  datatype Url = Url(scheme: string, host: string, port: Option<nat>,
                     path: string, params: string, query: string, fragment: string)

  /** The six components handed to urlunparse; only `netloc` is new. */
  datatype Parts = Parts(scheme: string, netloc: string, path: string,
                         params: string, query: string, fragment: string)

  /** The DNS lookup: the addresses a host name resolves to, in answer order, or None when it raises. */
  type Resolver = string -> Option<seq<string>>

  predicate IsDigit(c: char) { '0' <= c <= '9' }

  predicate AllDigits(s: string) { forall i :: 0 <= i < |s| ==> IsDigit(s[i]) }

  function Digit(d: nat): (c: char)
    requires d < 10
    ensures IsDigit(c) && c as int - '0' as int == d
  {
    ('0' as int + d) as char
  }

  /** Python's str() of a non-negative int. */
  function Decimal(n: nat): (s: string)
    ensures |s| > 0 && AllDigits(s)
    decreases n
  {
    if n < 10 then [Digit(n)] else Decimal(n / 10) + [Digit(n % 10)]
  }

  /** Python's int() of a string of decimal digits. */
  function DigitsValue(s: string): nat
    requires AllDigits(s)
    decreases |s|
  {
    if s == [] then 0
    else DigitsValue(s[..|s| - 1]) * 10 + (s[|s| - 1] as int - '0' as int)
  }

  lemma {:induction false} DecimalRoundTrip(n: nat)
    ensures DigitsValue(Decimal(n)) == n
    decreases n
  {
    if n >= 10 {
      DecimalRoundTrip(n / 10);
      var s := Decimal(n);
      assert s[..|s| - 1] == Decimal(n / 10);
    }
  }

  /** The new network location: `ip:port` when the URL named a port, else `ip`. */
  function Netloc(ip: string, port: Option<nat>): string
  {
    match port
    case None => ip
    case Some(p) => ip + ":" + Decimal(p)
  }

  function FirstColon(s: string): (i: nat)
    requires ':' in s
    ensures i < |s| && s[i] == ':' && ':' !in s[..i]
  {
    if s[0] == ':' then 0
    else
      var i := FirstColon(s[1..]) + 1;
      assert s[..i] == [s[0]] + s[1..][..i - 1];
      i
  }

  /**
   * How urlparse reads host and port back out of a network location that has
   * no user info and no brackets: the host is what precedes the first ':',
   * the port the digits after it (none when there is nothing after it).
   */
  function HostPort(netloc: string): (string, Option<nat>)
  {
    if ':' !in netloc then (netloc, None)
    else
      var i := FirstColon(netloc);
      var rest := netloc[i + 1..];
      (netloc[..i], if rest != [] && AllDigits(rest) then Some(DigitsValue(rest)) else None)
  }

  /** The rewritten network location reads back as the resolved address and the original port. */
  lemma NetlocReadsBack(ip: string, port: Option<nat>)
    requires ':' !in ip
    ensures HostPort(Netloc(ip, port)) == (ip, port)
  {
    var s := Netloc(ip, port);
    if port.Some? {
      var d := Decimal(port.value);
      assert s == ip + ":" + d;
      assert s[|ip|] == ':';
      assert forall k :: 0 <= k < |ip| ==> s[k] == ip[k];
      var i := FirstColon(s);
      assert i == |ip|;
      assert s[..i] == ip;
      assert s[i + 1..] == d;
      DecimalRoundTrip(port.value);
    }
  }

  /** One entry of the fan-out: the URL with its network location replaced (barista.py lines 47-51). */
  function Substitute(u: Url, ip: string): Parts
  {
    Parts(u.scheme, Netloc(ip, u.port), u.path, u.params, u.query, u.fragment)
  }

  /** The substitution keeps every component but the network location, which reads back as (ip, port). */
  lemma SubstituteKeepsAllButHost(u: Url, ip: string)
    requires ':' !in ip
    ensures var p := Substitute(u, ip);
      && p.scheme == u.scheme && p.path == u.path && p.params == u.params
      && p.query == u.query && p.fragment == u.fragment
      && HostPort(p.netloc) == (ip, u.port)
  {
    NetlocReadsBack(ip, u.port);
  }

  /** `a` followed by `sep` and `b` when `b` is non-empty, else `a` alone. */
  function Join(a: string, sep: string, b: string): string
  {
    if b == "" then a else a + sep + b
  }

  lemma JoinKeepsPrefix(a: string, sep: string, b: string)
    ensures |a| <= |Join(a, sep, b)| && Join(a, sep, b)[..|a|] == a
  {
  }

  /** The part after the network location: a relative path gets a leading '/'. */
  function Rooted(path: string): string
  {
    if path != "" && path[0] != '/' then "/" + path else path
  }

  /**
   * urlunparse for a non-empty network location: `path;params`, the `//`
   * authority, `scheme:` in front, then `?query` and `#fragment`, each
   * separator only when its part is non-empty.
   */
  function Unparse(p: Parts): string
  {
    var path := Join(p.path, ";", p.params);
    var rest := if p.netloc != "" then "//" + p.netloc + Rooted(path) else path;
    var withScheme := if p.scheme != "" then p.scheme + ":" + rest else rest;
    Join(Join(withScheme, "?", p.query), "#", p.fragment)
  }

  /** A rendered machine address starts with `scheme://netloc`, the base the HTTP calls are appended to. */
  lemma UnparseStartsWithAuthority(p: Parts)
    requires p.scheme != "" && p.netloc != ""
    ensures var head := p.scheme + "://" + p.netloc;
      |head| <= |Unparse(p)| && Unparse(p)[..|head|] == head
  {
    var head := p.scheme + "://" + p.netloc;
    var rooted := Rooted(Join(p.path, ";", p.params));
    var withScheme := p.scheme + ":" + ("//" + p.netloc + rooted);
    assert withScheme == head + rooted;
    assert withScheme[..|head|] == head;
    var withQuery := Join(withScheme, "?", p.query);
    JoinKeepsPrefix(withScheme, "?", p.query);
    assert withQuery[..|head|] == withQuery[..|withScheme|][..|head|];
    var r := Join(withQuery, "#", p.fragment);
    JoinKeepsPrefix(withQuery, "#", p.fragment);
    assert r[..|head|] == r[..|withQuery|][..|head|];
  }

  /** The entries one URL contributes, one per resolved address, in resolver order. */
  function Entries(u: Url, ips: seq<string>): (r: seq<string>)
    ensures |r| == |ips|
  {
    if ips == [] then []
    else Entries(u, ips[..|ips| - 1]) + [Unparse(Substitute(u, ips[|ips| - 1]))]
  }

  /** Entry j is the URL rewritten to address j. */
  lemma {:induction false} EntriesAt(u: Url, ips: seq<string>, j: nat)
    requires j < |ips|
    ensures Entries(u, ips)[j] == Unparse(Substitute(u, ips[j]))
    decreases |ips|
  {
    if j < |ips| - 1 {
      var init := ips[..|ips| - 1];
      EntriesAt(u, init, j);
      assert Entries(u, ips)[j] == Entries(u, init)[j];
    }
  }

  /** One URL's turn of the outer loop: resolve its host and append its entries. */
  function Step(acc: Option<seq<string>>, u: Url, resolve: Resolver): Option<seq<string>>
  {
    match acc
    case None => None
    case Some(prefix) =>
      match resolve(u.host)
      case None => None
      case Some(ips) => Some(prefix + Entries(u, ips))
  }

  /** The whole fan-out; None when any host fails to resolve, which ends the run. */
  function Expand(urls: seq<Url>, resolve: Resolver): Option<seq<string>>
  {
    if urls == [] then Some([])
    else Step(Expand(urls[..|urls| - 1], resolve), urls[|urls| - 1], resolve)
  }

  /** The fan-out succeeds exactly when every host resolves. */
  lemma {:induction false} ExpandDefined(urls: seq<Url>, resolve: Resolver)
    ensures Expand(urls, resolve).Some? <==> forall i :: 0 <= i < |urls| ==> resolve(urls[i].host).Some?
  {
    if urls != [] {
      var init := urls[..|urls| - 1];
      ExpandDefined(init, resolve);
      assert Expand(urls, resolve) == Step(Expand(init, resolve), urls[|urls| - 1], resolve);
      assert forall i :: 0 <= i < |init| ==> init[i] == urls[i];
    }
  }

  lemma StepAppend(x: Option<seq<string>>, y: Option<seq<string>>, u: Url, resolve: Resolver)
    ensures (if x.Some? && Step(y, u, resolve).Some? then Some(x.value + Step(y, u, resolve).value) else None)
         == Step(if x.Some? && y.Some? then Some(x.value + y.value) else None, u, resolve)
  {
    if x.Some? && y.Some? && resolve(u.host).Some? {
      var e := Entries(u, resolve(u.host).value);
      assert (x.value + y.value) + e == x.value + (y.value + e);
    }
  }

  /** Fanning out a concatenation is concatenating the fan-outs. */
  lemma {:induction false} ExpandConcat(a: seq<Url>, b: seq<Url>, resolve: Resolver)
    ensures Expand(a + b, resolve) ==
            if Expand(a, resolve).Some? && Expand(b, resolve).Some?
            then Some(Expand(a, resolve).value + Expand(b, resolve).value) else None
    decreases |b|
  {
    if b == [] {
      assert a + b == a;
      if Expand(a, resolve).Some? {
        assert Expand(a, resolve).value + [] == Expand(a, resolve).value;
      }
    } else {
      var init, u := b[..|b| - 1], b[|b| - 1];
      ExpandConcat(a, init, resolve);
      assert (a + b)[..|a + b| - 1] == a + init;
      assert (a + b)[|a + b| - 1] == u;
      assert Expand(a + b, resolve) == Step(Expand(a + init, resolve), u, resolve);
      assert Expand(b, resolve) == Step(Expand(init, resolve), u, resolve);
      StepAppend(Expand(a, resolve), Expand(init, resolve), u, resolve);
    }
  }

  /** The layout, when the URL in question is the last one. */
  lemma LayoutLast(urls: seq<Url>, resolve: Resolver)
    requires urls != [] && Expand(urls, resolve).Some?
    ensures var i := |urls| - 1;
      && resolve(urls[i].host).Some? && Expand(urls[..i], resolve).Some?
      && Expand(urls, resolve).value ==
         Expand(urls[..i], resolve).value + Entries(urls[i], resolve(urls[i].host).value)
  {
  }

  /** The layout around URL i carries over from the list without its last URL to the whole list. */
  lemma LayoutGrow(urls: seq<Url>, resolve: Resolver, i: nat)
    requires i < |urls| - 1 && Expand(urls, resolve).Some?
    requires var init := urls[..|urls| - 1];
      && resolve(init[i].host).Some?
      && Expand(init[..i], resolve).Some? && Expand(init[i + 1..], resolve).Some?
      && Expand(init, resolve) ==
         Some(Expand(init[..i], resolve).value + Entries(init[i], resolve(init[i].host).value)
              + Expand(init[i + 1..], resolve).value)
    ensures resolve(urls[i].host).Some?
    ensures Expand(urls[..i], resolve).Some? && Expand(urls[i + 1..], resolve).Some?
    ensures Expand(urls, resolve).value ==
            Expand(urls[..i], resolve).value + Entries(urls[i], resolve(urls[i].host).value)
            + Expand(urls[i + 1..], resolve).value
  {
    var init, last, tail := urls[..|urls| - 1], urls[|urls| - 1], urls[i + 1..];
    assert init[..i] == urls[..i] && init[i] == urls[i];
    assert tail[..|tail| - 1] == init[i + 1..] && tail[|tail| - 1] == last;
    var front := Expand(urls[..i], resolve).value + Entries(urls[i], resolve(urls[i].host).value);
    var back := Expand(init[i + 1..], resolve);
    StepAppend(Some(front), back, last, resolve);
  }

  /**
   * The layout of the fan-out: the entries of URL i, one per resolved address
   * in resolver order, come after those of every earlier URL and before those
   * of every later one.
   */
  lemma {:induction false} ExpandLayout(urls: seq<Url>, resolve: Resolver, i: nat)
    requires i < |urls| && Expand(urls, resolve).Some?
    ensures resolve(urls[i].host).Some?
    ensures Expand(urls[..i], resolve).Some? && Expand(urls[i + 1..], resolve).Some?
    ensures Expand(urls, resolve).value ==
            Expand(urls[..i], resolve).value + Entries(urls[i], resolve(urls[i].host).value)
            + Expand(urls[i + 1..], resolve).value
    decreases |urls|
  {
    LayoutLast(urls, resolve);
    if i == |urls| - 1 {
      assert urls[i + 1..] == [];
    } else {
      var init := urls[..|urls| - 1];
      ExpandLayout(init, resolve, i);
      LayoutGrow(urls, resolve, i);
    }
  }

  /** The inner loop of barista.py lines 46-53: one rendered URL per address of `u`, appended to `acc`. */
  method AppendEntries(acc: seq<string>, u: Url, ips: seq<string>) returns (r: seq<string>)
    ensures r == acc + Entries(u, ips)
  {
    r := acc;
    for j := 0 to |ips|
      invariant r == acc + Entries(u, ips[..j])
    {
      var netloc := if u.port.Some? then ips[j] + ":" + Decimal(u.port.value) else ips[j];
      assert Parts(u.scheme, netloc, u.path, u.params, u.query, u.fragment) == Substitute(u, ips[j]);
      r := r + [Unparse(Parts(u.scheme, netloc, u.path, u.params, u.query, u.fragment))];
      assert ips[..j + 1][..j] == ips[..j];
    }
    assert ips[..|ips|] == ips;
  }

  /** The loop of barista.py lines 41-53, appending one rendered URL per (URL, address) pair. */
  method FanOut(urls: seq<Url>, resolve: Resolver) returns (machines: Option<seq<string>>)
    ensures machines == Expand(urls, resolve)
  {
    var acc: seq<string> := [];
    for i := 0 to |urls|
      invariant Expand(urls[..i], resolve) == Some(acc)
    {
      var u := urls[i];
      var result := resolve(u.host);
      if result.None? {
        ExpandDefined(urls, resolve);
        return None;
      }
      acc := AppendEntries(acc, u, result.value);
      assert urls[..i + 1][..i] == urls[..i];
    }
    assert urls[..|urls|] == urls;
    return Some(acc);
  }
}
