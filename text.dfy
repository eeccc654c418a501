/** ASCII string operations the library leans on: Ruby's String#upcase,
    #downcase, #capitalize, #split and Array#join, as Ruby 1.9 performs them
    on ASCII text. */
module Text {

  predicate IsLower(c: char) { 'a' <= c <= 'z' }

  predicate IsUpper(c: char) { 'A' <= c <= 'Z' }

  function UpChar(c: char): char { if IsLower(c) then (c as int - 32) as char else c }

  function DownChar(c: char): char { if IsUpper(c) then (c as int + 32) as char else c }

  /** String#upcase */
  function Upcase(s: string): (r: string)
    ensures |r| == |s|
    ensures forall i :: 0 <= i < |s| ==> r[i] == UpChar(s[i])
  {
    seq(|s|, i requires 0 <= i < |s| => UpChar(s[i]))
  }

  /** String#downcase */
  function Downcase(s: string): (r: string)
    ensures |r| == |s|
    ensures forall i :: 0 <= i < |s| ==> r[i] == DownChar(s[i])
  {
    seq(|s|, i requires 0 <= i < |s| => DownChar(s[i]))
  }

  /** String#capitalize: the first character upper-case, the rest lower-case. */
  function Capitalize(s: string): (r: string)
    ensures |r| == |s|
  {
    if s == [] then [] else [UpChar(s[0])] + Downcase(s[1..])
  }

  /** True when no character of `s` is an ASCII lower-case letter. */
  predicate IsUpcased(s: string) { forall i :: 0 <= i < |s| ==> !IsLower(s[i]) }

  /** Case-insensitive equality, as the source's `a.downcase == b.downcase`. */
  predicate EqualsIgnoringCase(a: string, b: string) { Downcase(a) == Downcase(b) }

  predicate StartsWith(s: string, prefix: string) { |prefix| <= |s| && s[..|prefix|] == prefix }

  /** Every occurrence of `a` replaced by `b` (String#gsub with a one-character pattern). */
  function Replace(s: string, a: char, b: char): (r: string)
    ensures |r| == |s|
    ensures forall i :: 0 <= i < |s| ==> r[i] == if s[i] == a then b else s[i]
  {
    seq(|s|, i requires 0 <= i < |s| => if s[i] == a then b else s[i])
  }

  /** The concatenation of a sequence of strings, in order. */
  function Concat(parts: seq<string>): string
  {
    if parts == [] then "" else Concat(parts[..|parts| - 1]) + parts[|parts| - 1]
  }

  /** Splitting at every `c`: the pieces between separators, empty ones included;
      there is always one more piece than separators. */
  function Split(s: string, c: char): (parts: seq<string>)
    ensures |parts| >= 1
  {
    if s == [] then [""]
    else
      var init := Split(s[..|s| - 1], c);
      var last := s[|s| - 1];
      if last == c then init + [""]
      else init[..|init| - 1] + [init[|init| - 1] + [last]]
  }

  /** Array#join with a one-character separator. */
  function Join(parts: seq<string>, c: char): string
  {
    if parts == [] then ""
    else if |parts| == 1 then parts[0]
    else Join(parts[..|parts| - 1], c) + [c] + parts[|parts| - 1]
  }

  /** Drops empty pieces from the end, as Ruby's String#split does. */
  function DropTrailingEmpty(parts: seq<string>): (r: seq<string>)
    ensures |r| <= |parts| && r == parts[..|r|]
    ensures r == [] || r[|r| - 1] != ""
    ensures forall k :: |r| <= k < |parts| ==> parts[k] == ""
  {
    if parts == [] || parts[|parts| - 1] != "" then parts
    else DropTrailingEmpty(parts[..|parts| - 1])
  }

  /** String#split with a one-character separator: the pieces, trailing empty ones removed. */
  function RubySplit(s: string, c: char): seq<string>
  {
    DropTrailingEmpty(Split(s, c))
  }

  function MapStrings(f: string -> string, parts: seq<string>): (r: seq<string>)
    ensures |r| == |parts|
    ensures forall i :: 0 <= i < |parts| ==> r[i] == f(parts[i])
  {
    seq(|parts|, i requires 0 <= i < |parts| => f(parts[i]))
  }

  /** The same character-by-character map applied to every character. */
  function MapChars(f: char -> char, s: string): (r: string)
    ensures |r| == |s|
    ensures forall i :: 0 <= i < |s| ==> r[i] == f(s[i])
  {
    seq(|s|, i requires 0 <= i < |s| => f(s[i]))
  }

  // ---------------------------------------------------------------------
  // Case laws

  lemma UpcaseIdempotent(s: string)
    ensures Upcase(Upcase(s)) == Upcase(s)
    ensures IsUpcased(Upcase(s))
  {
  }

  lemma UpcaseOfUpcased(s: string)
    requires IsUpcased(s)
    ensures Upcase(s) == s
  {
  }

  /** Downcasing first loses nothing that upcasing afterwards would keep. */
  lemma UpcaseDowncase(s: string)
    ensures Upcase(Downcase(s)) == Upcase(s)
  {
  }

  /** Capitalizing ignores the case the string came in. */
  lemma CapitalizeUpcase(s: string)
    ensures Capitalize(Upcase(s)) == Capitalize(s)
  {
    if s != [] {
      assert Upcase(s)[1..] == Upcase(s[1..]);
      assert Downcase(Upcase(s[1..])) == Downcase(s[1..]);
    }
  }

  lemma CapitalizeIdempotent(s: string)
    ensures Capitalize(Capitalize(s)) == Capitalize(s)
  {
    if s != [] {
      assert Capitalize(s)[1..] == Downcase(s[1..]);
      assert Downcase(Downcase(s[1..])) == Downcase(s[1..]);
    }
  }

  /** Capitalizing keeps every character that is not a letter, so it keeps
      the string free of `c` when `c` is not a letter. */
  lemma CapitalizeKeepsFree(s: string, c: char)
    requires !IsLower(c) && !IsUpper(c) && c !in s
    ensures c !in Capitalize(s)
  {
    if s != [] {
      var r := Capitalize(s);
      forall i | 0 <= i < |r| ensures r[i] != c {
        if i > 0 { assert r[i] == DownChar(s[i]); }
      }
    }
  }

  // ---------------------------------------------------------------------
  // Split and Join

  /** Every piece of a split is free of the separator. */
  lemma {:induction false} SplitPiecesFree(s: string, c: char)
    ensures forall k :: 0 <= k < |Split(s, c)| ==> c !in Split(s, c)[k]
  {
    if s != [] {
      SplitPiecesFree(s[..|s| - 1], c);
    }
  }

  /** Splitting and joining again gives back the string. */
  lemma {:induction false} JoinSplit(s: string, c: char)
    ensures Join(Split(s, c), c) == s
  {
    if s != [] {
      var s' := s[..|s| - 1];
      var last := s[|s| - 1];
      JoinSplit(s', c);
      assert s == s' + [last];
      if last == c {
        SplitSeparator(s', c);
        JoinSnoc(Split(s', c), "", c);
      } else {
        SplitSnoc(s', last, c);
        JoinExtendLast(Split(s', c), [last], c);
      }
    }
  }

  lemma JoinSnoc(parts: seq<string>, t: string, c: char)
    requires |parts| >= 1
    ensures Join(parts + [t], c) == Join(parts, c) + [c] + t
  {
    assert (parts + [t])[..|parts|] == parts;
  }

  lemma JoinExtendLast(parts: seq<string>, t: string, c: char)
    requires |parts| >= 1
    ensures Join(ExtendLast(parts, t), c) == Join(parts, c) + t
  {
    var n := |parts|;
    var q := ExtendLast(parts, t);
    if n > 1 {
      assert q[..n - 1] == parts[..n - 1];
    }
  }

  /** Joining pieces that are free of the separator and splitting again gives back the pieces. */
  lemma {:induction false} SplitJoin(parts: seq<string>, c: char)
    requires |parts| >= 1
    requires forall k :: 0 <= k < |parts| ==> c !in parts[k]
    ensures Split(Join(parts, c), c) == parts
  {
    if |parts| == 1 {
      SplitFree(parts[0], c);
    } else {
      var init := parts[..|parts| - 1];
      var last := parts[|parts| - 1];
      SplitJoin(init, c);
      assert parts == init + [last];
      assert Join(parts, c) == (Join(init, c) + [c]) + last;
      SplitSeparator(Join(init, c), c);
      var p := Split(Join(init, c) + [c], c);
      assert p == init + [""];
      SplitAppendFree(Join(init, c) + [c], last, c);
      assert p[..|p| - 1] == init;
      assert p[|p| - 1] + last == last;
      assert ExtendLast(p, last) == parts;
    }
  }

  /** A string without the separator splits into itself. */
  lemma {:induction false} SplitFree(s: string, c: char)
    requires c !in s
    ensures Split(s, c) == [s]
  {
    if s != [] {
      SplitFree(s[..|s| - 1], c);
      assert s[..|s| - 1] + [s[|s| - 1]] == s;
    }
  }

  lemma SplitSeparator(s: string, c: char)
    ensures Split(s + [c], c) == Split(s, c) + [""]
  {
    assert (s + [c])[..|s|] == s;
  }

  /** The pieces with `t` appended to the last one. */
  function ExtendLast(parts: seq<string>, t: string): (r: seq<string>)
    requires |parts| >= 1
    ensures |r| == |parts|
  {
    parts[..|parts| - 1] + [parts[|parts| - 1] + t]
  }

  lemma ExtendLastTwice(parts: seq<string>, t: string, u: string)
    requires |parts| >= 1
    ensures ExtendLast(ExtendLast(parts, t), u) == ExtendLast(parts, t + u)
  {
    var q := ExtendLast(parts, t);
    assert q[..|q| - 1] == parts[..|parts| - 1];
    assert parts[|parts| - 1] + t + u == parts[|parts| - 1] + (t + u);
  }

  /** Appending separator-free text extends the last piece. */
  lemma {:induction false} SplitAppendFree(s: string, t: string, c: char)
    requires c !in t
    ensures Split(s + t, c) == ExtendLast(Split(s, c), t)
  {
    if t == [] {
      ExtendLastEmpty(Split(s, c));
      assert s + t == s;
    } else {
      var t' := t[..|t| - 1];
      var x := t[|t| - 1];
      assert x != c && c !in t' by {
        assert t == t' + [x];
      }
      SplitAppendFree(s, t', c);
      assert s + t == (s + t') + [x] by {
        assert t == t' + [x];
      }
      SplitSnoc(s + t', x, c);
      ExtendLastTwice(Split(s, c), t', [x]);
      assert t' + [x] == t;
    }
  }

  lemma ExtendLastEmpty(p: seq<string>)
    requires |p| >= 1
    ensures ExtendLast(p, []) == p
  {
    assert p[|p| - 1] + [] == p[|p| - 1];
    assert p[..|p| - 1] + [p[|p| - 1]] == p;
  }

  lemma SplitSnoc(u: string, x: char, c: char)
    requires x != c
    ensures Split(u + [x], c) == ExtendLast(Split(u, c), [x])
  {
    assert (u + [x])[..|u|] == u;
  }

  /** A character map that sends exactly the characters `c` to `d` commutes with splitting. */
  lemma {:induction false} SplitMapChars(f: char -> char, s: string, c: char, d: char)
    requires forall i :: 0 <= i < |s| ==> (f(s[i]) == d <==> s[i] == c)
    ensures Split(MapChars(f, s), d) == MapStrings(t => MapChars(f, t), Split(s, c))
  {
    if s != [] {
      var s' := s[..|s| - 1];
      var x := s[|s| - 1];
      SplitMapChars(f, s', c, d);
      assert s' + [x] == s;
      SplitMapStep(f, t => MapChars(f, t), s', x, c, d);
    }
  }

  /** One more character keeps a split and a character map commuting. */
  lemma SplitMapStep(f: char -> char, g: string -> string, s: string, x: char, c: char, d: char)
    requires forall t :: g(t) == MapChars(f, t)
    requires Split(MapChars(f, s), d) == MapStrings(g, Split(s, c))
    requires f(x) == d <==> x == c
    ensures Split(MapChars(f, s + [x]), d) == MapStrings(g, Split(s + [x], c))
  {
    assert MapChars(f, s + [x]) == MapChars(f, s) + [f(x)];
    if x == c {
      SplitMapSeparator(f, g, s, c, d);
    } else {
      SplitMapOther(f, g, s, x, c, d);
    }
  }

  lemma SplitMapSeparator(f: char -> char, g: string -> string, s: string, c: char, d: char)
    requires forall t :: g(t) == MapChars(f, t)
    requires Split(MapChars(f, s), d) == MapStrings(g, Split(s, c))
    requires f(c) == d
    ensures Split(MapChars(f, s) + [d], d) == MapStrings(g, Split(s + [c], c))
  {
    SplitSeparator(s, c);
    SplitSeparator(MapChars(f, s), d);
    assert g("") == "";
  }

  lemma SplitMapOther(f: char -> char, g: string -> string, s: string, x: char, c: char, d: char)
    requires forall t :: g(t) == MapChars(f, t)
    requires Split(MapChars(f, s), d) == MapStrings(g, Split(s, c))
    requires x != c && f(x) != d
    ensures Split(MapChars(f, s) + [f(x)], d) == MapStrings(g, Split(s + [x], c))
  {
    SplitSnoc(s, x, c);
    SplitSnoc(MapChars(f, s), f(x), d);
    MapExtendLast(f, g, Split(s, c), x);
  }

  /** Mapping commutes with extending the last piece by one character. */
  lemma MapExtendLast(f: char -> char, g: string -> string, parts: seq<string>, x: char)
    requires forall t :: g(t) == MapChars(f, t)
    requires |parts| >= 1
    ensures MapStrings(g, ExtendLast(parts, [x])) == ExtendLast(MapStrings(g, parts), [f(x)])
  {
    var k := |parts| - 1;
    assert g(parts[k] + [x]) == MapChars(f, parts[k]) + [f(x)];
  }

  lemma MapCharsEmpty(f: char -> char, parts: seq<string>)
    ensures forall k :: 0 <= k < |parts| ==> (MapChars(f, parts[k]) == "" <==> parts[k] == "")
  {
    forall k | 0 <= k < |parts| ensures MapChars(f, parts[k]) == "" <==> parts[k] == "" {
      assert |MapChars(f, parts[k])| == |parts[k]|;
    }
  }

  /** Dropping empty pieces commutes with a map that keeps exactly the empty strings empty. */
  lemma {:induction false} DropTrailingEmptyMap(f: string -> string, parts: seq<string>)
    requires forall k :: 0 <= k < |parts| ==> (f(parts[k]) == "" <==> parts[k] == "")
    ensures DropTrailingEmpty(MapStrings(f, parts)) == MapStrings(f, DropTrailingEmpty(parts))
  {
    if parts != [] && parts[|parts| - 1] == "" {
      DropTrailingEmptyMap(f, parts[..|parts| - 1]);
      assert MapStrings(f, parts)[..|parts| - 1] == MapStrings(f, parts[..|parts| - 1]);
    }
  }

  // ---------------------------------------------------------------------
  // Header-name canonicalisation

  /** `s.split(sep).map { |w| w.capitalize }.join('-')`: the words between
      separators, each capitalized, joined with dashes. Net::HTTPHeader
      writes its lower-case keys out this way (sep '-') and the Rack adapter
      its environment keys (sep '_'). */
  function Recapitalized(s: string, sep: char): string
  {
    Join(MapStrings(Capitalize, RubySplit(s, sep)), '-')
  }

  /** A header name in the form Recapitalized produces: dash-separated
      words that are each already capitalized, and no trailing dash. */
  predicate IsCapitalizedDashed(n: string)
  {
    && (n == "" || n[|n| - 1] != '-')
    && forall k :: 0 <= k < |Split(n, '-')| ==> Capitalize(Split(n, '-')[k]) == Split(n, '-')[k]
  }

  lemma CapitalizeDowncase(s: string)
    ensures Capitalize(Downcase(s)) == Capitalize(s)
  {
    if s != [] {
      assert Downcase(s)[1..] == Downcase(s[1..]);
      assert Downcase(Downcase(s[1..])) == Downcase(s[1..]);
    }
  }

  /** The last piece of a split is empty only for an empty string or one
      that ends with the separator. */
  lemma SplitLastPiece(s: string, c: char)
    requires s != [] && s[|s| - 1] != c
    ensures Split(s, c)[|Split(s, c)| - 1] != ""
  {
  }

  /** Recapitalizing a capitalized-dashed name after a character map that
      turns exactly its dashes into `sep` and whose words capitalize back
      to themselves gives the name back. */
  lemma RecapitalizeRoundTrip(f: char -> char, n: string, sep: char)
    requires IsCapitalizedDashed(n)
    requires forall i :: 0 <= i < |n| ==> (f(n[i]) == sep <==> n[i] == '-')
    requires forall k :: 0 <= k < |Split(n, '-')| ==>
               Capitalize(MapChars(f, Split(n, '-')[k])) == Capitalize(Split(n, '-')[k])
    ensures Recapitalized(MapChars(f, n), sep) == n
  {
    if n == "" {
      assert MapChars(f, n) == "";
    } else {
      var parts := Split(n, '-');
      SplitMapChars(f, n, '-', sep);
      var mparts := MapStrings(t => MapChars(f, t), parts);
      SplitLastPiece(n, '-');
      assert |mparts[|mparts| - 1]| == |parts[|parts| - 1]|;
      assert RubySplit(MapChars(f, n), sep) == mparts;
      assert MapStrings(Capitalize, mparts) == parts;
      JoinSplit(n, '-');
    }
  }

  /** Each part but the last followed by `c`, then the last part: the parts
      joined with `c`. */
  lemma {:induction false} TerminatedConcat(p: seq<string>, c: char)
    requires |p| >= 1
    ensures Concat(seq(|p| - 1, i requires 0 <= i < |p| - 1 => p[i] + [c])) + p[|p| - 1] == Join(p, c)
  {
    var ts := seq(|p| - 1, i requires 0 <= i < |p| - 1 => p[i] + [c]);
    if |p| == 1 {
      assert ts == [];
    } else {
      var q := p[..|p| - 1];
      TerminatedConcat(q, c);
      var tq := seq(|q| - 1, i requires 0 <= i < |q| - 1 => q[i] + [c]);
      assert ts[..|ts| - 1] == tq;
      assert Concat(ts) == Concat(tq) + (q[|q| - 1] + [c]);
    }
  }
}
