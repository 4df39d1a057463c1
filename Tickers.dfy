/** The `ticker` query parameter of the correlation endpoint: two symbols
    separated by a comma. */
module Tickers {
  import opened Wrappers

  /** The two client errors, each answered with status 400. */
  datatype TickerError = TickerRequired | TwoTickersRequired

  function Message(e: TickerError): string
  {
    match e
    case TickerRequired => "Ticker parameter is required"
    case TwoTickersRequired => "Two tickers must be provided separated by a comma"
  }

  /** The index of the first `c` in `s`, or |s| when there is none. */
  function IndexOf(s: string, c: char): (i: nat)
    ensures i <= |s|
    ensures forall j :: 0 <= j < i ==> s[j] != c
    ensures i < |s| ==> s[i] == c
  {
    if s == [] then 0 else if s[0] == c then 0 else 1 + IndexOf(s[1..], c)
  }

  /** `s.split(sep)`: the pieces between separators, always at least one. */
  function Split(s: string, sep: char): (fields: seq<string>)
    ensures |fields| >= 1
    ensures forall k :: 0 <= k < |fields| ==> sep !in fields[k]
    decreases |s|
  {
    var i := IndexOf(s, sep);
    if i == |s| then [s] else [s[..i]] + Split(s[i + 1..], sep)
  }

  /** The pieces glued back with the separator in between. */
  function Join(fields: seq<string>, sep: char): string
    requires |fields| >= 1
  {
    if |fields| == 1 then fields[0] else fields[0] + [sep] + Join(fields[1..], sep)
  }

  /** Joining the pieces of a split gives the original string back. */
  lemma {:induction false} JoinSplit(s: string, sep: char)
    ensures Join(Split(s, sep), sep) == s
    decreases |s|
  {
    var i := IndexOf(s, sep);
    if i < |s| {
      var rest := s[i + 1..];
      JoinSplit(rest, sep);
      JoinCons(s[..i], Split(rest, sep), sep);
      Reassemble(s, i);
    }
  }

  /** A string is its part before position i, the character at i, and its
      part after i. */
  lemma Reassemble(s: string, i: nat)
    requires i < |s|
    ensures s[..i] + [s[i]] + s[i + 1..] == s
  {
  }

  /** Splitting separator-free pieces glued together gives the pieces back. */
  lemma {:induction false} SplitJoin(fields: seq<string>, sep: char)
    requires |fields| >= 1
    requires forall k :: 0 <= k < |fields| ==> sep !in fields[k]
    ensures Split(Join(fields, sep), sep) == fields
  {
    var f := fields[0];
    NoSeparatorIndex(f, sep);
    if |fields| == 1 {
    } else {
      var rest := Join(fields[1..], sep);
      var s := f + [sep] + rest;
      IndexAfterPrefix(f, sep, rest);
      SplitJoin(fields[1..], sep);
      assert s[..|f|] == f;
      assert s[|f| + 1..] == rest;
      assert Join(fields, sep) == s;
      assert Split(s, sep) == [f] + fields[1..];
      assert fields == [f] + fields[1..];
    }
  }

  lemma {:induction false} NoSeparatorIndex(f: string, sep: char)
    requires sep !in f
    ensures IndexOf(f, sep) == |f|
  {
    if f != [] {
      NoSeparatorIndex(f[1..], sep);
    }
  }

  lemma {:induction false} IndexAfterPrefix(f: string, sep: char, rest: string)
    requires sep !in f
    ensures IndexOf(f + [sep] + rest, sep) == |f|
  {
    if f != [] {
      IndexAfterPrefix(f[1..], sep, rest);
      assert (f + [sep] + rest)[1..] == f[1..] + [sep] + rest;
    }
  }

  /** The check of index.js: a missing or empty parameter is TickerRequired;
      otherwise the first two comma-separated fields must both be present
      and non-empty, and later fields are ignored. */
  function ParseTickers(ticker: Option<string>): (r: Result<(string, string), TickerError>)
    ensures r == Failure(TickerRequired) <==> ticker == None || ticker == Some("")
    ensures r.Success? ==> r.value.0 != "" && r.value.1 != ""
  {
    match ticker
    case None => Failure(TickerRequired)
    case Some(s) =>
      if s == "" then Failure(TickerRequired)
      else
        var fields := Split(s, ',');
        if |fields| < 2 || fields[0] == "" || fields[1] == "" then Failure(TwoTickersRequired)
        else Success((fields[0], fields[1]))
  }

  /** Every string of the form a,b or a,b,... with non-empty comma-free a and
      b is accepted as the pair (a, b). */
  lemma ParseTickersAccepts(a: string, b: string, rest: string)
    requires a != "" && b != "" && ',' !in a && ',' !in b
    requires rest == "" || rest[0] == ','
    ensures ParseTickers(Some(a + [','] + b + rest)) == Success((a, b))
  {
    var s := a + [','] + b + rest;
    var fields: seq<string>;
    if rest == "" {
      fields := [a] + [b];
      JoinCons(a, [b], ',');
    } else {
      var tail := Split(rest[1..], ',');
      var g := [b] + tail;
      fields := [a] + g;
      JoinSplit(rest[1..], ',');
      JoinCons(b, tail, ',');
      JoinCons(a, g, ',');
      assert rest == [','] + rest[1..];
    }
    assert Join(fields, ',') == s;
    SplitJoin(fields, ',');
    assert Split(s, ',') == fields;
  }

  lemma JoinCons(x: string, g: seq<string>, sep: char)
    requires |g| >= 1
    ensures Join([x] + g, sep) == x + [sep] + Join(g, sep)
  {
    assert ([x] + g)[1..] == g;
  }

  /** Conversely, an accepted parameter starts with the pair, comma-separated,
      followed by nothing or by a further comma. */
  lemma ParseTickersShape(ticker: Option<string>)
    requires ParseTickers(ticker).Success?
    ensures var (a, b) := ParseTickers(ticker).value;
      var s, k := ticker.value, |a| + 1 + |b|;
      && ',' !in a && ',' !in b
      && k <= |s| && s[..k] == a + [','] + b
      && (k == |s| || s[k] == ',')
  {
    var s := ticker.value;
    var fields := Split(s, ',');
    JoinSplit(s, ',');
    var a, b := fields[0], fields[1];
    if |fields| == 2 {
      assert fields[1..] == [b];
      assert s == a + [','] + b;
    } else {
      assert fields[1..][1..] == fields[2..];
      assert s == a + [','] + b + [','] + Join(fields[2..], ',');
    }
  }

  /** Fields after the second one never change the outcome of a successful
      check. */
  lemma ExtraFieldsIgnored(s: string, extra: string)
    requires ParseTickers(Some(s)).Success?
    ensures ParseTickers(Some(s + [','] + extra)) == ParseTickers(Some(s))
  {
    ParseTickersShape(Some(s));
    var (a, b) := ParseTickers(Some(s)).value;
    var k := |a| + 1 + |b|;
    var rest := s[k..];
    assert s == a + [','] + b + rest;
    assert s + [','] + extra == a + [','] + b + (rest + [','] + extra);
    ParseTickersAccepts(a, b, rest);
    ParseTickersAccepts(a, b, rest + [','] + extra);
  }
}
