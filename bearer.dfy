/** Reading the token out of an `Authorization` header as routes/auth.js
    does: the header must start with the exact, case-sensitive text
    "Bearer " and the token is `header.split(" ")[1]`. (Section 2.1 of
    RFC 7235 makes scheme names case-insensitive; the code does not, and
    neither does this model.) */
module Bearer {
  import opened Wrappers

  const Scheme: string := "Bearer "

  predicate StartsWith(s: string, prefix: string) {
    |prefix| <= |s| && s[..|prefix|] == prefix
  }

  /** JavaScript's `s.split(sep)` for a one-character separator: the pieces
      between separators, empty ones included. */
  function Split(s: string, sep: char): (parts: seq<string>)
    ensures |parts| >= 1
    ensures forall i :: 0 <= i < |parts| ==> sep !in parts[i]
  {
    if s == [] then [""]
    else
      var rest := Split(s[1..], sep);
      if s[0] == sep then [""] + rest
      else [[s[0]] + rest[0]] + rest[1..]
  }

  /** `parts.join(sep)`. */
  function Join(parts: seq<string>, sep: char): string
    requires |parts| >= 1
  {
    if |parts| == 1 then parts[0] else parts[0] + [sep] + Join(parts[1..], sep)
  }

  /** Joining the pieces back gives the string that was split. */
  lemma {:induction false} JoinSplit(s: string, sep: char)
    ensures Join(Split(s, sep), sep) == s
  {
    if s != [] {
      JoinSplit(s[1..], sep);
      var rest := Split(s[1..], sep);
      if s[0] != sep && |rest| > 1 {
        assert Join(rest, sep) == rest[0] + [sep] + Join(rest[1..], sep);
      }
    }
  }

  /** A piece followed by the separator splits off as the first field. */
  lemma {:induction false} SplitAfterField(w: string, sep: char, rest: string)
    requires sep !in w
    ensures Split(w + [sep] + rest, sep) == [w] + Split(rest, sep)
  {
    if w == [] {
      assert w + [sep] + rest == [sep] + rest;
    } else {
      assert w[0] in w;
      assert (w + [sep] + rest)[0] == w[0];
      assert (w + [sep] + rest)[1..] == w[1..] + [sep] + rest;
      SplitAfterField(w[1..], sep, rest);
      assert [w[0]] + w[1..] == w;
    }
  }

  /** Splitting pieces that hold no separator after joining them gives the
      pieces back. */
  lemma {:induction false} SplitJoin(parts: seq<string>, sep: char)
    requires |parts| >= 1
    requires forall i :: 0 <= i < |parts| ==> sep !in parts[i]
    ensures Split(Join(parts, sep), sep) == parts
  {
    if |parts| == 1 {
      SplitSingleField(parts[0], sep);
    } else {
      SplitJoin(parts[1..], sep);
      SplitAfterField(parts[0], sep, Join(parts[1..], sep));
    }
  }

  lemma {:induction false} SplitSingleField(w: string, sep: char)
    requires sep !in w
    ensures Split(w, sep) == [w]
  {
    if w != [] {
      SplitSingleField(w[1..], sep);
      assert [w[0]] + w[1..] == w;
    }
  }

  /** The token of a header, or `None` (a 401) when the header does not
      start with the scheme. */
  function BearerToken(header: string): (token: Option<string>)
    ensures token.Some? <==> StartsWith(header, Scheme)
  {
    if StartsWith(header, Scheme) then
      SplitAfterField("Bearer", ' ', header[|Scheme|..]);
      assert header == "Bearer" + [' '] + header[|Scheme|..];
      Some(Split(header, ' ')[1])
    else
      None
  }

  /** The token is what follows "Bearer " up to the next space, or to the
      end of the header when there is none. */
  lemma BearerTokenIsNextField(header: string)
    requires StartsWith(header, Scheme)
    ensures var token := BearerToken(header).value;
            var rest := header[|Scheme|..];
            && ' ' !in token
            && token <= rest
            && (|token| == |rest| || rest[|token|] == ' ')
  {
    var rest := header[|Scheme|..];
    assert header == "Bearer" + [' '] + rest;
    SplitAfterField("Bearer", ' ', rest);
    FirstField(rest, ' ');
  }

  lemma {:induction false} FirstField(s: string, sep: char)
    ensures var f := Split(s, sep)[0];
            f <= s && (|f| == |s| || s[|f|] == sep)
  {
    if s != [] {
      FirstField(s[1..], sep);
    }
  }

  /** A header built from the scheme and a space-free token yields that token,
      while the lower-case scheme is refused. */
  lemma BearerTokenExamples(token: string)
    requires ' ' !in token
    ensures BearerToken(Scheme + token) == Some(token)
    ensures BearerToken("bearer " + token) == None
  {
    assert Scheme + token == "Bearer" + [' '] + token;
    SplitAfterField("Bearer", ' ', token);
    SplitSingleField(token, ' ');
    assert ("bearer " + token)[0] == 'b';
  }
}
