/** Printing and parsing permissions (pkg/riofile/stringers/permission.go). */
module Permissions {
  import opened Prelude
  import opened Strings

  datatype Permission = Permission(role: string, verbs: seq<string>, apiGroup: string, resource: string,
                                   url: string, resourceName: string)

  const NO_PERMISSION := Permission("", [], "", "", "", "")

  const READ_VERBS := ["get", "list", "watch"]
  const WRITE_VERBS := ["create", "delete", "get", "list", "patch", "update", "watch"]

  // ----- sort.Strings -----

  predicate LexLeq(x: string, y: string) {
    if x == "" then true
    else if y == "" then false
    else if x[0] != y[0] then x[0] < y[0]
    else LexLeq(x[1..], y[1..])
  }

  predicate Sorted(xs: seq<string>) {
    forall i :: 0 <= i < |xs| - 1 ==> LexLeq(xs[i], xs[i + 1])
  }

  function Insert(x: string, xs: seq<string>): seq<string> {
    if xs == [] || LexLeq(x, xs[0]) then [x] + xs else [xs[0]] + Insert(x, xs[1..])
  }

  function Sort(xs: seq<string>): seq<string> {
    if xs == [] then [] else Insert(xs[0], Sort(xs[1..]))
  }

  lemma {:induction false} LexTotal(x: string, y: string)
    ensures LexLeq(x, y) || LexLeq(y, x)
  {
    if x != "" && y != "" && x[0] == y[0] {
      LexTotal(x[1..], y[1..]);
    }
  }

  lemma SortedCons(x: string, xs: seq<string>)
    requires Sorted(xs) && (xs != [] ==> LexLeq(x, xs[0]))
    ensures Sorted([x] + xs)
  {
    var ys := [x] + xs;
    forall i | 0 <= i < |ys| - 1 ensures LexLeq(ys[i], ys[i + 1]) {
      assert i > 0 ==> ys[i] == xs[i - 1] && ys[i + 1] == xs[i - 1 + 1];
    }
  }

  lemma SortedTail(xs: seq<string>)
    requires Sorted(xs) && xs != []
    ensures Sorted(xs[1..])
  {
    forall i | 0 <= i < |xs[1..]| - 1 ensures LexLeq(xs[1..][i], xs[1..][i + 1]) {
      assert LexLeq(xs[i + 1], xs[i + 1 + 1]);
    }
  }

  lemma {:induction false} InsertSorted(x: string, xs: seq<string>)
    requires Sorted(xs)
    ensures Sorted(Insert(x, xs)) && multiset(Insert(x, xs)) == multiset([x]) + multiset(xs)
    ensures Insert(x, xs)[0] == x || (xs != [] && Insert(x, xs)[0] == xs[0])
  {
    if xs != [] && !LexLeq(x, xs[0]) {
      LexTotal(x, xs[0]);
      SortedTail(xs);
      InsertSorted(x, xs[1..]);
      assert xs == [xs[0]] + xs[1..];
      var rest := Insert(x, xs[1..]);
      assert LexLeq(xs[0], rest[0]) by {
        if rest[0] != x { assert LexLeq(xs[0], xs[1]); }
      }
      SortedCons(xs[0], rest);
    } else {
      SortedCons(x, xs);
    }
  }

  // Sorting yields a sorted permutation, and leaves a sorted list as it is.
  lemma {:induction false} SortSorts(xs: seq<string>)
    ensures Sorted(Sort(xs)) && multiset(Sort(xs)) == multiset(xs)
    ensures Sort(xs) == xs <==> Sorted(xs)
  {
    if xs != [] {
      SortSorts(xs[1..]);
      InsertSorted(xs[0], Sort(xs[1..]));
      assert xs == [xs[0]] + xs[1..];
      if Sorted(xs) {
        SortedTail(xs);
        if |xs| > 1 { assert LexLeq(xs[0], xs[1]); }
      }
    }
  }

  // ----- printing -----

  function VerbWords(verbs: seq<string>): seq<string> {
    if verbs == WRITE_VERBS then ["write"]
    else if verbs == [] || verbs == READ_VERBS then []
    else [Join(verbs, ",")]
  }

  function ResourceWord(p: Permission): string {
    if p.apiGroup != "" || '/' in p.resource || p.resource == "*" then p.apiGroup + "/" + p.resource else p.resource
  }

  // A rule prints as up to four words.
  function Words(p: Permission): seq<string> {
    VerbWords(Sort(p.verbs)) + [ResourceWord(p)]
    + (if p.resourceName != "" then [p.resourceName] else [])
    + (if p.url != "" then ["url=" + p.url] else [])
  }

  function Print(p: Permission): string {
    if p.role != "" then "role=" + p.role else Join(Words(p), " ")
  }

  // The caller's verbs are sorted in place on the way.
  method MaybeString(p: Permission, callersVerbs: array<string>) returns (buf: string)
    requires p.verbs == callersVerbs[..]
    modifies callersVerbs
    ensures buf == Print(p)
    ensures callersVerbs[..] == if p.role != "" then old(callersVerbs[..]) else Sort(old(callersVerbs[..]))
  {
    if p.role != "" {
      return "role=" + p.role;
    }
    SortInPlace(callersVerbs);
    var verbs := callersVerbs[..];
    buf := WriteVerbs(verbs);
    ghost var words := VerbWords(verbs) + [ResourceWord(p)];
    if p.apiGroup != "" || '/' in p.resource || p.resource == "*" {
      buf := buf + (p.apiGroup + "/" + p.resource);
    } else {
      buf := buf + p.resource;
    }
    StartJoin(VerbWords(verbs), ResourceWord(p));
    if p.resourceName != "" {
      buf := WriteWord(buf, words, p.resourceName);
      words := words + [p.resourceName];
    }
    if |p.url| > 0 {
      buf := WriteWord(buf, words, "url=" + p.url);
      words := words + ["url=" + p.url];
    }
    assert words == Words(p);
  }

  // sort.Strings: the sorted list takes the place of the caller's.
  method SortInPlace(xs: array<string>)
    modifies xs
    ensures xs[..] == Sort(old(xs[..]))
  {
    var sorted := Sort(xs[..]);
    SortLength(xs[..]);
    for i := 0 to xs.Length
      invariant xs[..i] == sorted[..i]
    {
      xs[i] := sorted[i];
    }
    assert xs[..] == xs[..xs.Length];
  }

  lemma SortLength(xs: seq<string>)
    ensures |Sort(xs)| == |xs|
  {
    SortSorts(xs);
    assert |multiset(Sort(xs))| == |Sort(xs)| && |multiset(xs)| == |xs|;
  }

  // That does not show in the text: what is left of the rule prints the same.
  lemma PrintIsStable(p: Permission)
    ensures Print(p.(verbs := Sort(p.verbs))) == Print(p)
  {
    SortSorts(p.verbs);
    SortSorts(Sort(p.verbs));
  }

  // The text of the verbs and the space after it.
  function Leading(words: seq<string>): string {
    if words == [] then "" else words[0] + " "
  }

  method WriteVerbs(verbs: seq<string>) returns (buf: string)
    ensures buf == Leading(VerbWords(verbs))
  {
    buf := "";
    if verbs == WRITE_VERBS {
      buf := "write" + " ";
    } else if |verbs| > 0 && verbs != READ_VERBS {
      buf := Join(verbs, ",") + " ";
    }
  }

  method WriteWord(buf: string, ghost words: seq<string>, word: string) returns (buf': string)
    requires words != [] && buf == Join(words, " ")
    ensures buf' == Join(words + [word], " ")
  {
    JoinAppend(words, " ", word);
    buf' := buf + " " + word;
  }

  lemma StartJoin(words: seq<string>, word: string)
    requires |words| <= 1
    ensures Join(words + [word], " ") == Leading(words) + word
  {
    if |words| == 1 {
      assert (words + [word])[1..] == [word];
    }
  }

  // ----- parsing -----

  datatype ParseError = EmptyRule | InvalidFormat | IndexOutOfRange

  function AssignVerbs(word: string): seq<string> {
    if word == "read" then READ_VERBS
    else if word == "write" then WRITE_VERBS
    else TrimAll(SplitOn(word, ","))
  }

  function TrimAll(xs: seq<string>): (ys: seq<string>)
    ensures |ys| == |xs|
  {
    seq(|xs|, i requires 0 <= i < |xs| => TrimSpace(xs[i]))
  }

  function AssignResource(p: Permission, word: string): Permission {
    var (group, resource) := KvSplit(word, "/");
    if resource == "" then p.(resource := group) else p.(apiGroup := group, resource := resource)
  }

  predicate IsURL(word: string) { "url=" <= word }

  // The words that are not URLs, and the last URL.
  function FilterURL(parts: seq<string>): (seq<string>, string) {
    if parts == [] then ([], "")
    else
      var (rest, url) := FilterURL(parts[..|parts| - 1]);
      var word := parts[|parts| - 1];
      if IsURL(word) then (rest, word[4..]) else (rest + [word], url)
  }

  function ParseRule(perm: string): Result<Permission, ParseError> {
    var (parts, url) := FilterURL(Fields(perm));
    if |parts| == 0 then Err(IndexOutOfRange)
    else if |parts| == 1 then Ok(AssignResource(NO_PERMISSION.(url := url, verbs := READ_VERBS), parts[0]))
    else if |parts| > 3 then Err(InvalidFormat)
    else
      var p := AssignResource(NO_PERMISSION.(url := url, verbs := AssignVerbs(parts[0])), parts[1]);
      Ok(if |parts| == 3 then p.(resourceName := parts[2]) else p)
  }

  function TrimPrefix(s: string, prefix: string): string {
    if prefix <= s then s[|prefix|..] else s
  }

  function Parse(perm: string): Result<Permission, ParseError> {
    if "role=" <= perm then Ok(NO_PERMISSION.(role := TrimSpace(TrimPrefix(perm, "role="))))
    else
      var rule := TrimSpace(TrimPrefix(perm, "rule="));
      if rule == "" then Err(EmptyRule) else ParseRule(rule)
  }

  method ParsePermission(perm: string) returns (r: Result<Permission, ParseError>)
    ensures r == Parse(perm)
  {
    if "role=" <= perm {
      return Ok(NO_PERMISSION.(role := TrimSpace(TrimPrefix(perm, "role="))));
    }
    var rule := TrimSpace(TrimPrefix(perm, "rule="));
    if rule == "" {
      return Err(EmptyRule);
    }
    var fields := Fields(rule);
    var parts, url := [], "";
    for i := 0 to |fields|
      invariant (parts, url) == FilterURL(fields[..i])
    {
      assert fields[..i + 1][..i] == fields[..i];
      if "url=" <= fields[i] {
        url := fields[i][4..];
        continue;
      }
      parts := parts + [fields[i]];
    }
    assert fields[..|fields|] == fields;
    if |parts| == 0 {
      return Err(IndexOutOfRange);
    }
    var p := NO_PERMISSION.(url := url);
    if |parts| == 1 {
      p := AssignResource(p.(verbs := READ_VERBS), parts[0]);
    } else {
      p := AssignResource(p.(verbs := AssignVerbs(parts[0])), parts[1]);
      if |parts| == 3 {
        p := p.(resourceName := parts[2]);
      }
    }
    if |parts| > 3 {
      return Err(InvalidFormat);
    }
    r := Ok(p);
  }

  // ----- rules without a word to index -----

  lemma {:induction false} OnlyURLs(parts: seq<string>)
    ensures FilterURL(parts).0 == [] <==> forall i :: 0 <= i < |parts| ==> IsURL(parts[i])
  {
    if parts != [] {
      OnlyURLs(parts[..|parts| - 1]);
      assert forall i :: 0 <= i < |parts| - 1 ==> parts[..|parts| - 1][i] == parts[i];
    }
  }

  // The text of a rule that is not a role, without its optional prefix.
  function RuleText(perm: string): string {
    TrimSpace(TrimPrefix(perm, "rule="))
  }

  // The parser indexes an empty list exactly on rules all of whose words are URLs.
  lemma ParseIndexesEmptyList(perm: string)
    ensures Parse(perm) == Err(IndexOutOfRange) <==>
      && !("role=" <= perm) && RuleText(perm) != ""
      && forall i :: 0 <= i < |Fields(RuleText(perm))| ==> IsURL(Fields(RuleText(perm))[i])
  {
    OnlyURLs(Fields(RuleText(perm)));
  }

  // One such text for every URL without spaces, with or without the space the printer leaves.
  lemma URLOnly(url: string)
    requires NoSpace(url)
    ensures Parse("url=" + url) == Err(IndexOutOfRange)
    ensures Parse(" " + ("url=" + url)) == Err(IndexOutOfRange)
  {
    var word := "url=" + url;
    assert word[0] == 'u' && "role="[0] == 'r' && "rule="[0] == 'r' && (" " + word)[0] == ' ';
    assert NoSpace("url=") && NoSpace(word) && Trimmed(word);
    assert TrimSpace(word) == word;
    assert TrimSpace(" " + word) == word by { assert (" " + word)[1..] == word; }
    FieldsJoin([word]);
    assert Join([word], " ") == word;
    ParseIndexesEmptyList(word);
    ParseIndexesEmptyList(" " + word);
  }

  lemma URLOnlyExample()
    ensures Parse("url=x") == Err(IndexOutOfRange)
  {
    assert "url=x" == "url=" + "x";
    URLOnly("x");
  }

  // The printer produces such a text for a rule of just a URL, with no verbs or the read verbs.
  lemma PrintedURLOnly(url: string, verbs: seq<string>)
    requires url != "" && NoSpace(url) && (verbs == [] || verbs == READ_VERBS)
    ensures Parse(Print(NO_PERMISSION.(url := url, verbs := verbs))) == Err(IndexOutOfRange)
  {
    var p := NO_PERMISSION.(url := url, verbs := verbs);
    ReadVerbsSorted();
    var words := ["", "url=" + url];
    assert Words(p) == words && words[1..] == ["url=" + url];
    assert Join(words, " ") == words[0] + " " + Join(words[1..], " ");
    assert words[0] + " " == " ";
    URLOnly(url);
  }

  lemma ReadVerbsSorted()
    ensures Sort(READ_VERBS) == READ_VERBS
  {
    assert LexLeq("get", "list") && LexLeq("list", "watch");
    SortSorts(READ_VERBS);
  }

  // ----- round trip -----

  // No spaces, commas or equals signs.
  predicate CleanToken(s: string) {
    NoSpace(s) && ',' !in s && '=' !in s
  }

  predicate CleanRule(p: Permission) {
    && p.role == "" && p.resource != "" && NoSpace(p.url)
    && (forall i :: 0 <= i < |p.verbs| ==> p.verbs[i] != "" && CleanToken(p.verbs[i]))
    && CleanToken(p.apiGroup) && '/' !in p.apiGroup
    && CleanToken(p.resource) && CleanToken(p.resourceName)
  }

  lemma {:induction false} NoEqualsJoin(xs: seq<string>, sep: string, c: char)
    requires c !in sep && forall i :: 0 <= i < |xs| ==> c !in xs[i]
    ensures c !in Join(xs, sep)
  {
    if |xs| > 1 {
      NoEqualsJoin(xs[1..], sep, c);
    }
  }

  lemma {:induction false} NoSpaceJoin(xs: seq<string>, sep: string)
    requires NoSpace(sep) && forall i :: 0 <= i < |xs| ==> NoSpace(xs[i])
    ensures NoSpace(Join(xs, sep))
  {
    if |xs| > 1 {
      NoSpaceJoin(xs[1..], sep);
    }
  }

  lemma {:induction false} JoinEnds(xs: seq<string>)
    requires xs != [] && forall i :: 0 <= i < |xs| ==> xs[i] != "" && NoSpace(xs[i])
    ensures Join(xs, " ") != "" && Trimmed(Join(xs, " "))
  {
    if |xs| > 1 {
      JoinEnds(xs[1..]);
    }
  }

  lemma {:induction false} NoURLs(parts: seq<string>)
    requires forall i :: 0 <= i < |parts| ==> '=' !in parts[i]
    ensures FilterURL(parts) == (parts, "")
  {
    if parts != [] {
      NoURLs(parts[..|parts| - 1]);
      assert parts == parts[..|parts| - 1] + [parts[|parts| - 1]];
      assert "url="[3] == '=';
    }
  }

  function URLWords(url: string): seq<string> {
    if url != "" then ["url=" + url] else []
  }

  lemma URLWordIsClean(url: string)
    requires NoSpace(url)
    ensures forall w | w in URLWords(url) :: w != "" && NoSpace(w)
  {
    assert NoSpace("url=");
  }

  lemma LastURL(words: seq<string>, url: string)
    requires FilterURL(words) == (words, "")
    ensures FilterURL(words + ["url=" + url]) == (words, url)
  {
    var all, word := words + ["url=" + url], "url=" + url;
    assert all[..|all| - 1] == words && all[|all| - 1] == word;
    assert word[..4] == "url=" && word[4..] == url;
  }

  // A text whose first word has no equals sign does not start with "role=" or "rule=".
  lemma NotPrefixed(words: seq<string>, prefix: string)
    requires words != [] && '=' !in words[0] && ' ' !in prefix
    ensures !(prefix + "=" <= Join(words, " "))
  {
    var text, n := Join(words, " "), |words[0]|;
    assert text[..n] == words[0] && (|words| > 1 ==> text[n] == ' ');
    assert (prefix + "=")[|prefix|] == '=';
  }

  // Non-empty words without spaces, the first of them without an equals sign.
  predicate PlainWords(words: seq<string>) {
    && words != [] && '=' !in words[0]
    && forall i :: 0 <= i < |words| ==> words[i] != "" && NoSpace(words[i])
  }

  lemma PlainText(words: seq<string>)
    requires PlainWords(words)
    ensures
      var s := Join(words, " ");
      s != "" && Trimmed(s) && !("role=" <= s) && !("rule=" <= s)
  {
    JoinEnds(words);
    NotPrefixed(words, "role");
    NotPrefixed(words, "rule");
    assert "role" + "=" == "role=" && "rule" + "=" == "rule=";
  }

  lemma ParseIsRule(s: string)
    requires s != "" && Trimmed(s) && !("role=" <= s) && !("rule=" <= s)
    ensures Parse(s) == ParseRule(s)
  {
    assert TrimSpace(s) == s;
  }

  predicate CleanWords(words: seq<string>) {
    words != [] && forall i :: 0 <= i < |words| ==> words[i] != "" && NoSpace(words[i]) && '=' !in words[i]
  }

  // Clean words survive printing and splitting, and so does a URL after them.
  lemma WordsComeBack(words: seq<string>, url: string)
    requires CleanWords(words) && NoSpace(url)
    ensures PlainWords(words + URLWords(url))
    ensures FilterURL(Fields(Join(words + URLWords(url), " "))) == (words, url)
  {
    var all := words + URLWords(url);
    URLWordIsClean(url);
    FieldsJoin(all);
    NoURLs(words);
    if url != "" {
      LastURL(words, url);
    } else {
      assert all == words;
    }
  }

  lemma ParseOfWords(words: seq<string>, url: string)
    requires CleanWords(words) && NoSpace(url)
    ensures
      var text := Join(words + URLWords(url), " ");
      Parse(text) == ParseRule(text) && FilterURL(Fields(text)) == (words, url)
  {
    WordsComeBack(words, url);
    PlainText(words + URLWords(url));
    ParseIsRule(Join(words + URLWords(url), " "));
  }

  lemma ResourceWordParses(p: Permission, q: Permission)
    requires CleanRule(p) && q.apiGroup == ""
    ensures AssignResource(q, ResourceWord(p)) == q.(apiGroup := p.apiGroup, resource := p.resource)
    ensures ResourceWord(p) != "" && NoSpace(ResourceWord(p)) && '=' !in ResourceWord(p)
  {
    if p.apiGroup != "" || '/' in p.resource || p.resource == "*" {
      SplitFound(p.apiGroup, "/", p.resource);
      assert ResourceWord(p) == p.apiGroup + "/" + p.resource;
    } else {
      SplitMissing(p.resource, "/");
      assert ResourceWord(p) == p.resource;
    }
  }

  lemma VerbWordParses(verbs: seq<string>)
    requires verbs != [] && forall i :: 0 <= i < |verbs| ==> verbs[i] != "" && CleanToken(verbs[i])
    requires verbs != READ_VERBS
    ensures
      var words := VerbWords(verbs);
      && |words| == 1 && words[0] != "" && NoSpace(words[0]) && '=' !in words[0]
      && (AssignVerbs(words[0]) == verbs <==> verbs != ["read"] && verbs != ["write"])
  {
    if verbs != WRITE_VERBS {
      var word := Join(verbs, ",");
      NoEqualsJoin(verbs, ",", '=');
      NoSpaceJoin(verbs, ",");
      SplitJoin(verbs, ",");
      assert TrimAll(verbs) == verbs;
      WordOfOne(verbs, "read");
      WordOfOne(verbs, "write");
    }
  }

  // The joined verbs read "read" or "write" only when that is the one verb.
  lemma WordOfOne(verbs: seq<string>, w: string)
    requires verbs != [] && ',' !in w && forall i :: 0 <= i < |verbs| ==> ',' !in verbs[i]
    ensures Join(verbs, ",") == w <==> verbs == [w]
  {
    SplitJoin(verbs, ",");
    if Join(verbs, ",") == w {
      FindNone(w, ",");
    }
  }

  // A clean rule, with or without a URL, comes back unchanged exactly when its verbs are sorted, not
  // empty, not the single word "read" or "write", and the read verbs come without a resource name.
  lemma PermissionRoundTrip(p: Permission)
    requires CleanRule(p)
    ensures Parse(Print(p)) == Ok(p) <==>
      && Sorted(p.verbs) && p.verbs != [] && p.verbs != ["read"] && p.verbs != ["write"]
      && (p.verbs == READ_VERBS ==> p.resourceName == "")
  {
    SortSorts(p.verbs);
    var verbs, words := Sort(p.verbs), Words(p);
    CleanVerbs(p.verbs);
    ResourceWordParses(p, NO_PERMISSION.(verbs := READ_VERBS));
    if verbs == [] || verbs == READ_VERBS {
      ReadRoundTrip(p, verbs);
    } else {
      VerbWordParses(verbs);
      VerbRoundTrip(p, VerbWords(verbs)[0]);
    }
  }

  lemma CleanVerbs(verbs: seq<string>)
    requires forall i :: 0 <= i < |verbs| ==> verbs[i] != "" && CleanToken(verbs[i])
    ensures forall i :: 0 <= i < |Sort(verbs)| ==> Sort(verbs)[i] != "" && CleanToken(Sort(verbs)[i])
  {
    SortSorts(verbs);
    forall i | 0 <= i < |Sort(verbs)| ensures Sort(verbs)[i] != "" && CleanToken(Sort(verbs)[i]) {
      assert Sort(verbs)[i] in multiset(Sort(verbs));
      assert Sort(verbs)[i] in verbs;
    }
  }

  lemma RuleOfWords(s: string, words: seq<string>, url: string)
    requires FilterURL(Fields(s)) == (words, url) && 2 <= |words| <= 3
    ensures
      var p := AssignResource(NO_PERMISSION.(url := url, verbs := AssignVerbs(words[0])), words[1]);
      ParseRule(s) == Ok(if |words| == 3 then p.(resourceName := words[2]) else p)
  {
  }

  // Without printed verbs, the words are the resource and perhaps a name, and the parser takes a
  // lone resource for a rule with the read verbs.
  lemma ReadRoundTrip(p: Permission, verbs: seq<string>)
    requires CleanRule(p) && verbs == Sort(p.verbs) && (verbs == [] || verbs == READ_VERBS)
    ensures Parse(Print(p)) == Ok(p) <==> p.verbs == READ_VERBS && p.resourceName == ""
  {
    SortSorts(p.verbs);
    ResourceWordParses(p, NO_PERMISSION.(url := p.url, verbs := READ_VERBS));
    if p.resourceName == "" {
      LoneResource(p);
    } else {
      NameWithoutVerbs(p);
    }
  }

  lemma LoneResource(p: Permission)
    requires CleanRule(p) && p.resourceName == "" && VerbWords(Sort(p.verbs)) == []
    ensures Parse(Print(p)) == Ok(p.(verbs := READ_VERBS))
  {
    var r := ResourceWord(p);
    ResourceWordParses(p, NO_PERMISSION.(url := p.url, verbs := READ_VERBS));
    assert Words(p) == [r] + URLWords(p.url);
    ParseOfWords([r], p.url);
  }

  // The resource is then taken for the verbs and the name for the resource.
  lemma NameWithoutVerbs(p: Permission)
    requires CleanRule(p) && p.resourceName != "" && VerbWords(Sort(p.verbs)) == []
    ensures Parse(Print(p)).Ok? && Parse(Print(p)).value.resourceName == ""
  {
    var r := ResourceWord(p);
    ResourceWordParses(p, NO_PERMISSION);
    assert Words(p) == [r, p.resourceName] + URLWords(p.url);
    ParseOfWords([r, p.resourceName], p.url);
    RuleOfWords(Join(Words(p), " "), [r, p.resourceName], p.url);
  }

  lemma VerbRoundTrip(p: Permission, w: string)
    requires CleanRule(p) && VerbWords(Sort(p.verbs)) == [w]
    requires w != "" && NoSpace(w) && '=' !in w
    ensures Parse(Print(p)) == Ok(p.(verbs := AssignVerbs(w)))
  {
    var r := ResourceWord(p);
    ResourceWordParses(p, NO_PERMISSION.(url := p.url, verbs := AssignVerbs(w)));
    var words := if p.resourceName != "" then [w, r, p.resourceName] else [w, r];
    assert Words(p) == words + URLWords(p.url);
    ParseOfWords(words, p.url);
    RuleOfWords(Join(Words(p), " "), words, p.url);
  }

  // A role comes back when it has no surrounding spaces; nothing else is kept with it.
  lemma RoleRoundTrip(role: string)
    requires role != ""
    ensures Parse(Print(NO_PERMISSION.(role := role))) == Ok(NO_PERMISSION.(role := TrimSpace(role)))
  {
    assert ("role=" + role)[5..] == role;
  }
}
