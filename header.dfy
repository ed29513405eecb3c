/** The `Authorization` header is cut with JavaScript's `split(' ')`: on every
    single space, keeping empty pieces. The token is piece number 1, the text
    after the first space up to the next one; the scheme word before it is
    never looked at. */
module Header {
  import opened Wrappers

  /** `s.split(' ')`. */
  function Split(s: string): (parts: seq<string>)
    ensures |parts| >= 1
    ensures |parts| == 1 <==> ' ' !in s
    ensures forall i :: 0 <= i < |parts| ==> ' ' !in parts[i]
    decreases |s|
  {
    if s == [] then [[]]
    else
      var tail := Split(s[1..]);
      assert s == [s[0]] + s[1..];
      if s[0] == ' ' then [[]] + tail
      else [[s[0]] + tail[0]] + tail[1..]
  }

  /** `parts.join(' ')`. */
  function Join(parts: seq<string>): string
    requires |parts| >= 1
    decreases |parts|
  {
    if |parts| == 1 then parts[0] else parts[0] + " " + Join(parts[1..])
  }

  /** Splitting loses nothing: joining the pieces gives the header back. */
  lemma {:induction false} JoinSplit(s: string)
    ensures Join(Split(s)) == s
    decreases |s|
  {
    if s != [] {
      var tail := Split(s[1..]);
      JoinSplit(s[1..]);
      var parts := Split(s);
      if s[0] == ' ' {
        assert parts[1..] == tail;
      } else if |tail| == 1 {
        assert parts == [[s[0]] + tail[0]];
      } else {
        assert parts[1..] == tail[1..];
        assert Join(tail) == tail[0] + " " + Join(tail[1..]);
      }
    }
  }

  /** A piece without spaces splits to itself. */
  lemma {:induction false} SplitWord(a: string)
    requires ' ' !in a
    ensures Split(a) == [a]
    decreases |a|
  {
    if a != [] {
      assert a == [a[0]] + a[1..];
      SplitWord(a[1..]);
    }
  }

  /** A leading space-free word becomes the first piece, and the rest is split
      on its own. */
  lemma {:induction false} SplitAfterWord(a: string, b: string)
    requires ' ' !in a
    ensures Split(a + " " + b) == [a] + Split(b)
    decreases |a|
  {
    var s := a + " " + b;
    if a == [] {
      assert s[0] == ' ' && s[1..] == b;
    } else {
      assert s[0] == a[0] && s[1..] == a[1..] + " " + b;
      assert a == [a[0]] + a[1..];
      SplitAfterWord(a[1..], b);
    }
  }

  /** Joining space-free pieces and splitting again gives the pieces back. */
  lemma {:induction false} SplitJoin(parts: seq<string>)
    requires |parts| >= 1
    requires forall i :: 0 <= i < |parts| ==> ' ' !in parts[i]
    ensures Split(Join(parts)) == parts
    decreases |parts|
  {
    if |parts| == 1 {
      SplitWord(parts[0]);
    } else {
      SplitJoin(parts[1..]);
      SplitAfterWord(parts[0], Join(parts[1..]));
    }
  }

  /** `header.split(' ')[1]`, which is `undefined` (`None`) when the header
      holds no space. */
  function BearerToken(header: string): (token: Option<string>)
    ensures token.Some? <==> ' ' in header
    ensures token.Some? ==> ' ' !in token.value
  {
    var parts := Split(header);
    if |parts| > 1 then Some(parts[1]) else None
  }

  /** The token is the text after the first space, up to the next space. */
  lemma TokenFollowsFirstSpace(scheme: string, rest: string)
    requires ' ' !in scheme
    ensures BearerToken(scheme + " " + rest) == Some(Split(rest)[0])
  {
    SplitAfterWord(scheme, rest);
  }

  /** `"<scheme> <token>"` yields `token`, and so does the same header with
      further space-separated words after the token. */
  lemma WellFormedHeader(scheme: string, token: string, more: seq<string>)
    requires ' ' !in scheme && ' ' !in token
    requires forall i :: 0 <= i < |more| ==> ' ' !in more[i]
    ensures BearerToken(scheme + " " + Join([token] + more)) == Some(token)
  {
    var parts := [token] + more;
    forall i | 0 <= i < |parts| ensures ' ' !in parts[i] {
      if i > 0 { assert parts[i] == more[i - 1]; }
    }
    SplitJoin(parts);
    TokenFollowsFirstSpace(scheme, Join(parts));
    assert Split(Join(parts))[0] == token;
  }

  /** The scheme word is not checked: any space-free word before the token
      gives the same token. */
  lemma SchemeIgnored(scheme1: string, scheme2: string, rest: string)
    requires ' ' !in scheme1 && ' ' !in scheme2
    ensures BearerToken(scheme1 + " " + rest) == BearerToken(scheme2 + " " + rest)
  {
    TokenFollowsFirstSpace(scheme1, rest);
    TokenFollowsFirstSpace(scheme2, rest);
  }
}
