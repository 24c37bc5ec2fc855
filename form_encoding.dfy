/**
 * A reference reader for the strings the login sends: how a server reads a
 * parameter out of a URL query or an application/x-www-form-urlencoded body
 * (RFC 6749 appendix B), and how it splits a Basic credential (section 2 of
 * RFC 7617). Values are not percent-decoded; the lemmas that use the reader
 * only apply it to values without '%' and '+', for which decoding changes
 * nothing.
 */
module FormEncoding {
  import opened Wrappers
  import opened Text

  /** `s` cut at every `sep`, as `String.Split` does. */
  function Split(s: string, sep: char): (parts: seq<string>)
    ensures |parts| >= 1
    ensures sep !in s ==> parts == [s]
    decreases |s|
  {
    match FindChar(s, sep)
    case None => [s]
    case Some(k) => [s[..k]] + Split(s[k + 1..], sep)
  }

  lemma SplitAt(a: string, b: string, sep: char)
    requires sep !in a
    ensures Split(a + [sep] + b, sep) == [a] + Split(b, sep)
  {
    var s := a + [sep] + b;
    assert s[..|a|] == a;
    FindCharIsFirst(s, sep, |a|);
    assert s[|a| + 1..] == b;
  }

  /** The value of the first `key=value` pair in `pairs` whose key is `key`. */
  function Lookup(pairs: seq<string>, key: string): Option<string>
  {
    if pairs == [] then None
    else
      var eq := FindChar(pairs[0], '=');
      if eq.Some? && pairs[0][..eq.value] == key then Some(pairs[0][eq.value + 1..])
      else Lookup(pairs[1..], key)
  }

  lemma LookupPair(k: string, v: string, rest: seq<string>, key: string)
    requires '=' !in k
    ensures Lookup([k + "=" + v] + rest, key) == if k == key then Some(v) else Lookup(rest, key)
  {
    var p := k + "=" + v;
    assert p[..|k|] == k;
    FindCharIsFirst(p, '=', |k|);
    assert p[|k| + 1..] == v;
    assert ([p] + rest)[1..] == rest;
  }

  /** The value of parameter `key` in a form-encoded string. */
  function FormValue(form: string, key: string): Option<string>
  {
    Lookup(Split(form, '&'), key)
  }

  /** The value of query parameter `key` of `url`: the query runs from the first '?' to the next '#'. */
  function QueryValue(url: string, key: string): Option<string>
  {
    match FindChar(url, '?')
    case None => None
    case Some(q) =>
      var query := url[q + 1..];
      match FindChar(query, '#')
      case None => FormValue(query, key)
      case Some(h) => FormValue(query[..h], key)
  }

  /** A value that reads back unchanged from a query or form body without escaping. */
  predicate PlainValue(v: string)
  {
    '&' !in v && '#' !in v && '%' !in v && '+' !in v
  }

  /** RFC 7617: the user-id of a Basic credential ends at the first colon. */
  function SplitUserPass(credential: string): (r: Option<(string, string)>)
    ensures r.Some? ==> ':' !in r.value.0 && credential == r.value.0 + ":" + r.value.1
    ensures r.None? <==> ':' !in credential
  {
    match FindChar(credential, ':')
    case None => None
    case Some(k) =>
      assert credential == credential[..k] + ":" + credential[k + 1..];
      Some((credential[..k], credential[k + 1..]))
  }
}
