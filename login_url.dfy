/**
 * The reply of the `webui-url-login` command: the base address, the `otp` parameter and the
 * optional `redirect` parameter. Its partner is the reading of those parameters back out of
 * the link, as the console page that receives the link does.
 */
module LoginUrl {
  import opened Wrappers
  import UriComponent
  import Base36

  /** The warning line that precedes every link ("the link contains your account information; do not share it"). */
  const Warning: string := "链接包含了您的账户信息，请勿泄露\n"

  /** The reply when the command is used outside a direct chat ("please use this command in a private chat"). */
  const Rejection: string := "请在私聊中使用该命令。"

  /** koishi's `trimSlash`: drops one trailing `/`, if there is one. */
  function TrimSlash(s: string): (r: string)
    ensures r <= s && |s| - 1 <= |r|
    ensures r == s <==> s == [] || s[|s| - 1] != '/'
  {
    if s != [] && s[|s| - 1] == '/' then s[..|s| - 1] else s
  }

  /**
   * `selfUrl ?? serverConfigSelfUrl ?? serverSelfUrl`: the first source that is defined wins,
   * even when it is the empty string.
   */
  function FirstDefined(selfUrl: Option<string>, serverConfigSelfUrl: Option<string>, serverSelfUrl: string): (r: string)
    ensures selfUrl.Some? ==> r == selfUrl.value
    ensures selfUrl.None? && serverConfigSelfUrl.Some? ==> r == serverConfigSelfUrl.value
    ensures selfUrl.None? && serverConfigSelfUrl.None? ==> r == serverSelfUrl
  {
    match selfUrl
    case Some(u) => u
    case None =>
      match serverConfigSelfUrl
      case Some(u) => u
      case None => serverSelfUrl
  }

  /** The base address of the link: the first defined source, without its trailing slash. */
  function BaseUrl(selfUrl: Option<string>, serverConfigSelfUrl: Option<string>, serverSelfUrl: string): string {
    TrimSlash(FirstDefined(selfUrl, serverConfigSelfUrl, serverSelfUrl))
  }

  /** JavaScript truthiness of a string that may be undefined: defined and non-empty. */
  predicate Truthy(o: Option<string>) {
    o.Some? && o.value != []
  }

  /**
   * The redirect target: `path = path || config.jumpUrl`, as the later `path ? … : ''` reads it.
   * The empty string stands for "no redirect".
   */
  function RedirectTarget(path: Option<string>, jumpUrl: Option<string>): (target: string)
    ensures target != [] <==> Truthy(path) || Truthy(jumpUrl)
    ensures Truthy(path) ==> target == path.value
    ensures !Truthy(path) && Truthy(jumpUrl) ==> target == jumpUrl.value
  {
    if Truthy(path) then path.value else if Truthy(jumpUrl) then jumpUrl.value else []
  }

  /** `path ? '&redirect=' + encodeURIComponent(path) : ''`. */
  function RedirectSuffix(target: string): string {
    if target == [] then [] else "&" + ("redirect=" + UriComponent.Encode(target))
  }

  /** `baseUrl + '?otp=' + otp + path`, with path already turned into its `&redirect=` suffix. */
  function Link(base: string, otp: string, target: string): string {
    base + "?" + ("otp=" + otp + RedirectSuffix(target))
  }

  /**
   * The whole reply: the warning line, then the link. Read as a URL it gives back the code as
   * `otp`, and the encoded target as `redirect` exactly when there is one, as long as the base
   * holds neither `?` nor `#` and the code neither `&` nor `#`. The warning line holds neither
   * `?` nor `#`, so it stays out of the query.
   */
  function Reply(base: string, otp: string, target: string): (r: string)
    ensures PlainBase(base) && PlainCode(otp) ==>
      Param(r, "otp") == Some(otp) &&
      Param(r, "redirect") == (if target == [] then None else Some(UriComponent.Encode(target)))
  {
    var r := Warning + Link(base, otp, target);
    assert r == Link(Warning + base, otp, target);
    assert PlainBase(base) && PlainCode(otp) ==>
      Param(r, "otp") == Some(otp) &&
      Param(r, "redirect") == (if target == [] then None else Some(UriComponent.Encode(target))) by {
      if PlainBase(base) && PlainCode(otp) {
        assert Excludes(Warning, '?') && Excludes(Warning, '#');
        ExcludesConcat(Warning, base, '?');
        ExcludesConcat(Warning, base, '#');
        LinkParams(Warning + base, otp, target);
      }
    }
    r
  }

  // ---- Reading a link back ----

  predicate Excludes(s: string, c: char) {
    forall i :: 0 <= i < |s| ==> s[i] != c
  }

  /** A base address whose every character belongs to the URL before its query: no `?` and no `#`. */
  predicate PlainBase(base: string) {
    Excludes(base, '?') && Excludes(base, '#')
  }

  /** A code that can stand as a query value: no `&`, and no `#` that would start the fragment. */
  predicate PlainCode(otp: string) {
    Excludes(otp, '&') && Excludes(otp, '#')
  }

  /**
   * The query of a URL: what follows its first `?`, up to the fragment mark `#`. It is "" when
   * there is no `?`, or when a `#` comes first (then the `?` is part of the fragment).
   */
  function QueryOf(url: string): string {
    if url == [] || url[0] == '#' then []
    else if url[0] == '?' then BeforeFragment(url[1..])
    else QueryOf(url[1..])
  }

  /** What comes before the first `#`. */
  function BeforeFragment(s: string): string {
    if s == [] || s[0] == '#' then [] else [s[0]] + BeforeFragment(s[1..])
  }

  /** The `&`-separated fields of a query. */
  function Fields(query: string): (fs: seq<string>)
    ensures |fs| >= 1
  {
    if query == [] then [[]]
    else
      var rest := Fields(query[1..]);
      if query[0] == '&' then [[]] + rest else [[query[0]] + rest[0]] + rest[1..]
  }

  /** The value of the first field `key=value`. */
  function Lookup(fields: seq<string>, key: string): (r: Option<string>)
    ensures r.Some? ==> exists i :: 0 <= i < |fields| && fields[i] == key + "=" + r.value
  {
    if fields == [] then None
    else if key + "=" <= fields[0] then
      assert fields[0] == key + "=" + fields[0][|key| + 1..];
      Some(fields[0][|key| + 1..])
    else
      var r := Lookup(fields[1..], key);
      if r.Some? then
        var i :| 0 <= i < |fields[1..]| && fields[1..][i] == key + "=" + r.value;
        assert fields[i + 1] == key + "=" + r.value;
        r
      else r
  }

  /** The value of the query parameter `key` in url. */
  function Param(url: string, key: string): Option<string> {
    Lookup(Fields(QueryOf(url)), key)
  }

  lemma {:induction false} BeforeNoFragment(s: string)
    requires Excludes(s, '#')
    ensures BeforeFragment(s) == s
    decreases |s|
  {
    if s != [] {
      BeforeNoFragment(s[1..]);
      assert [s[0]] + s[1..] == s;
    }
  }

  lemma {:induction false} QuerySkip(p: string, t: string)
    requires PlainBase(p)
    ensures QueryOf(p + t) == QueryOf(t)
    decreases |p|
  {
    if p != [] {
      assert (p + t)[0] == p[0] && p[0] != '?' && p[0] != '#';
      assert (p + t)[1..] == p[1..] + t;
      assert PlainBase(p[1..]);
      QuerySkip(p[1..], t);
    } else {
      assert p + t == t;
    }
  }

  lemma {:induction false} QueryAfter(base: string, rest: string)
    requires PlainBase(base) && Excludes(rest, '#')
    ensures QueryOf(base + "?" + rest) == rest
    decreases |base|
  {
    if base == [] {
      assert (base + "?" + rest)[1..] == rest;
      BeforeNoFragment(rest);
    } else {
      assert (base + "?" + rest)[1..] == base[1..] + "?" + rest;
      QueryAfter(base[1..], rest);
    }
  }

  lemma {:induction false} FieldsSingle(a: string)
    requires Excludes(a, '&')
    ensures Fields(a) == [a]
    decreases |a|
  {
    if a != [] {
      FieldsSingle(a[1..]);
      assert [a[0]] + a[1..] == a;
    }
  }

  lemma {:induction false} FieldsJoin(a: string, b: string)
    requires Excludes(a, '&')
    ensures Fields(a + "&" + b) == [a] + Fields(b)
    decreases |a|
  {
    if a == [] {
      assert (a + "&" + b)[1..] == b;
    } else {
      assert (a + "&" + b)[1..] == a[1..] + "&" + b;
      FieldsJoin(a[1..], b);
      assert [a[0]] + a[1..] == a;
    }
  }

  lemma ExcludesConcat(a: string, b: string, c: char)
    requires Excludes(a, c) && Excludes(b, c)
    ensures Excludes(a + b, c)
  {
  }

  lemma LookupHead(key: string, value: string, rest: seq<string>)
    ensures Lookup([key + "=" + value] + rest, key) == Some(value)
  {
  }

  lemma LookupSkip(field: string, key: string, rest: seq<string>)
    requires field != [] && key != [] && field[0] != key[0]
    ensures Lookup([field] + rest, key) == Lookup(rest, key)
  {
  }

  lemma BareLinkParams(base: string, otp: string)
    requires PlainBase(base) && PlainCode(otp)
    ensures Param(Link(base, otp, []), "otp") == Some(otp)
    ensures Param(Link(base, otp, []), "redirect") == None
  {
    var first := "otp=" + otp;
    assert first + RedirectSuffix([]) == first;
    ExcludesConcat("otp=", otp, '#');
    QueryAfter(base, first);
    ExcludesConcat("otp=", otp, '&');
    FieldsSingle(first);
    LookupHead("otp", otp, []);
    LookupSkip(first, "redirect", []);
  }

  lemma RedirectLinkParams(base: string, otp: string, target: string)
    requires PlainBase(base) && PlainCode(otp) && target != []
    ensures Param(Link(base, otp, target), "otp") == Some(otp)
    ensures Param(Link(base, otp, target), "redirect") == Some(UriComponent.Encode(target))
  {
    var first := "otp=" + otp;
    var enc := UriComponent.Encode(target);
    var second := "redirect=" + enc;
    assert RedirectSuffix(target) == "&" + second;
    assert first + RedirectSuffix(target) == first + "&" + second;
    assert Excludes(enc, '#');
    ExcludesConcat("otp=", otp, '#');
    ExcludesConcat(first, "&", '#');
    ExcludesConcat("redirect=", enc, '#');
    ExcludesConcat(first + "&", second, '#');
    QueryAfter(base, first + "&" + second);
    ExcludesConcat("otp=", otp, '&');
    FieldsJoin(first, second);
    ExcludesConcat("redirect=", enc, '&');
    FieldsSingle(second);
    LookupHead("otp", otp, [second]);
    LookupSkip(first, "redirect", [second]);
    LookupHead("redirect", enc, []);
    assert [second] + [] == [second];
  }

  /**
   * A link read back: `otp` gives the code, and `redirect` gives the percent-encoded target
   * exactly when there is one, which decodes to the target. The base must hold neither `?`
   * nor `#`, and the code neither `&` nor `#`.
   */
  lemma LinkParams(base: string, otp: string, target: string)
    requires PlainBase(base) && PlainCode(otp)
    ensures Param(Link(base, otp, target), "otp") == Some(otp)
    ensures target == [] ==> Param(Link(base, otp, target), "redirect") == None
    ensures target != [] ==> Param(Link(base, otp, target), "redirect") == Some(UriComponent.Encode(target))
    ensures target != [] ==> UriComponent.Decode(UriComponent.Encode(target)) == Some(target)
  {
    if target == [] {
      BareLinkParams(base, otp);
    } else {
      RedirectLinkParams(base, otp, target);
      UriComponent.DecodeEncode(target);
    }
  }

  /** A base-36 code holds only digits and lower-case letters, so it is a plain query value. */
  lemma CodeIsPlain(n: nat)
    ensures PlainCode(Base36.Encode(n))
  {
    var otp := Base36.Encode(n);
    forall i | 0 <= i < |otp| ensures otp[i] != '&' && otp[i] != '#' {
      assert Base36.IsDigit(otp[i]);
    }
  }

  /**
   * Every reply the command builds from a base-36 code reads back: its `otp` parameter is the
   * code, and its `redirect` parameter is the encoded target exactly when there is one.
   */
  lemma ReplyParams(base: string, n: nat, target: string)
    requires PlainBase(base)
    ensures var otp := Base36.Encode(n); var reply := Reply(base, otp, target);
      Param(reply, "otp") == Some(otp) &&
      Param(reply, "redirect") == (if target == [] then None else Some(UriComponent.Encode(target)))
  {
    CodeIsPlain(n);
  }

  /**
   * A base that holds a `#` puts the code in the fragment: the link then has no query, and
   * no `otp` parameter, whatever the code and the target.
   */
  lemma FragmentBase(pre: string, post: string, otp: string, target: string)
    requires PlainBase(pre)
    ensures Param(Link(pre + "#" + post, otp, target), "otp") == None
  {
    var rest := post + "?" + ("otp=" + otp + RedirectSuffix(target));
    assert Link(pre + "#" + post, otp, target) == pre + ("#" + rest);
    QuerySkip(pre, "#" + rest);
    assert QueryOf("#" + rest) == [];
    assert Fields([]) == [[]];
  }

  /** The server-wide address is used when the plugin has no address of its own. */
  lemma ServerAddressExample()
    ensures Link(BaseUrl(None, Some("https://example.com/"), "http://127.0.0.1:5140"), "abc123", RedirectTarget(Some("/dash"), None))
      == "https://example.com?otp=abc123&redirect=%2Fdash"
  {
    UriComponent.EncodePathExample();
  }

  /** A plugin address that is set but empty is still taken: `??` only skips undefined. */
  lemma EmptySelfUrlExample()
    ensures Link(BaseUrl(Some(""), Some("https://example.com"), "http://127.0.0.1:5140"), "abc123", RedirectTarget(Some("/dash"), None))
      == "?otp=abc123&redirect=%2Fdash"
  {
    UriComponent.EncodePathExample();
  }
}
