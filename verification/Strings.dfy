/** The string functions the printers and parsers are built from: Go's strings.Split, Join, Fields,
    TrimSpace, Atoi and Itoa, and the kv helpers of the wrangler library. */
module Strings {
  import opened Prelude

  // ----- searching and splitting -----

  // The first position at which `sep` occurs.
  function Find(s: string, sep: string): (r: Option<nat>)
    ensures r.Some? ==> r.value + |sep| <= |s|
  {
    if |s| < |sep| then None
    else if sep <= s then Some(0)
    else if s == "" then None
    else match Find(s[1..], sep)
         case None => None
         case Some(i) => Some(i + 1)
  }

  function SplitOn(s: string, sep: string): (parts: seq<string>)
    requires sep != ""
    ensures parts != []
  {
    match Find(s, sep)
    case None => [s]
    case Some(i) => [s[..i]] + SplitOn(s[i + |sep|..], sep)
  }

  function Join(parts: seq<string>, sep: string): string {
    if parts == [] then "" else if |parts| == 1 then parts[0]
    else parts[0] + sep + Join(parts[1..], sep)
  }

  lemma {:induction false} FindNone(s: string, sep: string)
    requires sep != "" && sep[0] !in s
    ensures Find(s, sep) == None
  {
    if s != "" {
      FindNone(s[1..], sep);
    }
  }

  lemma {:induction false} FindFirst(x: string, sep: string, y: string)
    requires sep != "" && sep[0] !in x
    ensures Find(x + sep + y, sep) == Some(|x|)
  {
    var s := x + sep + y;
    if x == "" {
      assert s[..|sep|] == sep;
    } else {
      FindFirst(x[1..], sep, y);
      assert s[1..] == x[1..] + sep + y;
      assert s[0] == x[0];
    }
  }

  lemma SplitFirst(x: string, sep: string, y: string)
    requires sep != "" && sep[0] !in x
    ensures SplitOn(x + sep + y, sep) == [x] + SplitOn(y, sep)
  {
    FindFirst(x, sep, y);
    assert (x + sep + y)[..|x|] == x && (x + sep + y)[|x| + |sep|..] == y;
  }

  lemma {:induction false} SplitJoin(parts: seq<string>, sep: string)
    requires sep != "" && parts != []
    requires forall i :: 0 <= i < |parts| ==> sep[0] !in parts[i]
    ensures SplitOn(Join(parts, sep), sep) == parts
  {
    if |parts| == 1 {
      FindNone(parts[0], sep);
    } else {
      SplitJoin(parts[1..], sep);
      SplitFirst(parts[0], sep, Join(parts[1..], sep));
    }
  }

  lemma {:induction false} JoinAppend(xs: seq<string>, sep: string, x: string)
    requires xs != []
    ensures Join(xs + [x], sep) == Join(xs, sep) + sep + x
  {
    if |xs| == 1 {
      assert (xs + [x])[1..] == [x];
    } else {
      assert (xs + [x])[1..] == xs[1..] + [x];
      JoinAppend(xs[1..], sep, x);
    }
  }

  // ----- spaces -----

  // unicode.IsSpace on Latin-1.
  predicate IsSpace(c: char) {
    c == ' ' || '\t' <= c <= '\r' || c == '\U{85}' || c == '\U{A0}'
  }

  predicate NoSpace(s: string) {
    forall i :: 0 <= i < |s| ==> !IsSpace(s[i])
  }

  function TrimSpace(s: string): string {
    if s == "" then ""
    else if IsSpace(s[0]) then TrimSpace(s[1..])
    else if IsSpace(s[|s| - 1]) then TrimSpace(s[..|s| - 1])
    else s
  }

  // Neither end is a space, so trimming changes nothing.
  predicate Trimmed(s: string) {
    s == "" || (!IsSpace(s[0]) && !IsSpace(s[|s| - 1]))
  }

  // The maximal runs of non-space characters, given the run being read.
  function FieldsFrom(s: string, word: string): seq<string> {
    if s == "" then (if word == "" then [] else [word])
    else if IsSpace(s[0]) then (if word == "" then [] else [word]) + FieldsFrom(s[1..], "")
    else FieldsFrom(s[1..], word + [s[0]])
  }

  function Fields(s: string): seq<string> {
    FieldsFrom(s, "")
  }

  lemma {:induction false} FieldsOfWord(x: string, y: string, word: string)
    requires NoSpace(x)
    ensures FieldsFrom(x + y, word) == FieldsFrom(y, word + x)
  {
    if x == "" {
      assert x + y == y && word + x == word;
    } else {
      assert (x + y)[1..] == x[1..] + y && word + [x[0]] + x[1..] == word + x;
      FieldsOfWord(x[1..], y, word + [x[0]]);
    }
  }

  lemma {:induction false} FieldsJoin(words: seq<string>)
    requires forall i :: 0 <= i < |words| ==> words[i] != "" && NoSpace(words[i])
    ensures Fields(Join(words, " ")) == words
  {
    if words == [] {
    } else if |words| == 1 {
      assert words[0] + "" == words[0] && "" + words[0] == words[0];
      FieldsOfWord(words[0], "", "");
    } else {
      var rest := Join(words[1..], " ");
      FieldsJoin(words[1..]);
      assert words[0] + " " + rest == words[0] + (" " + rest) && "" + words[0] == words[0];
      FieldsOfWord(words[0], " " + rest, "");
      assert (" " + rest)[1..] == rest;
    }
  }

  // ----- kv -----

  function KvSplit(s: string, sep: string): (string, string) {
    match Find(s, sep)
    case None => (TrimSpace(s), "")
    case Some(i) => (TrimSpace(s[..i]), TrimSpace(s[i + |sep|..]))
  }

  // Like KvSplit, but a string without separator is the second half.
  function KvRSplit(s: string, sep: string): (string, string) {
    match Find(s, sep)
    case None => ("", TrimSpace(s))
    case Some(i) => (TrimSpace(s[..i]), TrimSpace(s[i + |sep|..]))
  }

  lemma SplitFound(x: string, sep: string, y: string)
    requires sep != "" && sep[0] !in x && Trimmed(x) && Trimmed(y)
    ensures KvSplit(x + sep + y, sep) == (x, y) && KvRSplit(x + sep + y, sep) == (x, y)
  {
    FindFirst(x, sep, y);
    assert (x + sep + y)[..|x|] == x && (x + sep + y)[|x| + |sep|..] == y;
  }

  lemma SplitMissing(x: string, sep: string)
    requires sep != "" && sep[0] !in x && Trimmed(x)
    ensures KvSplit(x, sep) == (x, "") && KvRSplit(x, sep) == ("", x)
  {
    FindNone(x, sep);
  }

  // ----- numbers -----

  function Digit(d: nat): char
    requires d < 10
  {
    '0' + d as char
  }

  predicate IsDigit(c: char) {
    '0' <= c <= '9'
  }

  function Itoa(n: nat): (s: string)
    ensures s != "" && forall i :: 0 <= i < |s| ==> IsDigit(s[i])
  {
    if n < 10 then [Digit(n)] else Itoa(n / 10) + [Digit(n % 10)]
  }

  function Digits(s: string): Option<nat> {
    if s == "" || !IsDigit(s[|s| - 1]) then None
    else
      var d := (s[|s| - 1] - '0') as nat;
      if |s| == 1 then Some(d)
      else match Digits(s[..|s| - 1])
           case None => None
           case Some(n) => Some(10 * n + d)
  }

  const MAX_INT := 0x7FFF_FFFF_FFFF_FFFF

  // strconv.Atoi: an optional sign and decimal digits, within 64 bits.
  function Atoi(s: string): Option<int> {
    var negative := s != "" && s[0] == '-';
    match Digits(if negative || (s != "" && s[0] == '+') then s[1..] else s)
    case None => None
    case Some(n) =>
      var v := if negative then 0 - n as int else n as int;
      if -MAX_INT - 1 <= v <= MAX_INT then Some(v) else None
  }

  lemma {:induction false} AtoiItoa(n: nat)
    requires n <= MAX_INT
    ensures Atoi(Itoa(n)) == Some(n)
  {
    DigitsItoa(n);
    assert IsDigit(Itoa(n)[0]);
  }

  lemma {:induction false} DigitsItoa(n: nat)
    ensures Digits(Itoa(n)) == Some(n)
  {
    if n >= 10 {
      DigitsItoa(n / 10);
      assert Itoa(n)[..|Itoa(n)| - 1] == Itoa(n / 10);
    }
  }
}
