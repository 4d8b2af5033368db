/** The banking resources list: `stripHtmlTags`, which turns a resource's
    HTML summary or content into plain text, and the filter behind the
    category buttons and the search box. */
module BankingList {
  import opened Js

  // ---------------------------------------------------------------------
  // stripHtmlTags

  /** The text after the first `c` of `s`. */
  function AfterFirst(s: string, c: char): (r: string)
    requires c in s
    ensures |r| < |s| && r == s[|s| - |r|..]
    ensures s[|s| - |r| - 1] == c && c !in s[..|s| - |r| - 1]
  {
    if s[0] == c then s[1..]
    else
      assert c in s[1..];
      AfterFirst(s[1..], c)
  }

  /** `.replace(/<[^>]*>/g, '')`: scanning left to right, a `<` followed
      somewhere by a `>` is dropped together with everything up to the
      first such `>`; a `<` with no `>` after it stays. */
  function RemoveTags(s: string): string
    decreases |s|
  {
    if s == [] then ""
    else if s[0] == '<' && '>' in s then RemoveTags(AfterFirst(s, '>'))
    else [s[0]] + RemoveTags(s[1..])
  }

  /** Removing tags adds no character, and leaves no complete tag: no `<`
      is followed by a `>`. */
  lemma {:induction false} NoTagRemains(s: string)
    ensures forall c :: c in RemoveTags(s) ==> c in s
    ensures forall i, j :: 0 <= i < j < |RemoveTags(s)| && RemoveTags(s)[i] == '<' ==> RemoveTags(s)[j] != '>'
    decreases |s|
  {
    if s == [] {
    } else if s[0] == '<' && '>' in s {
      NoTagRemains(AfterFirst(s, '>'));
    } else {
      NoTagRemains(s[1..]);
      var r := RemoveTags(s);
      var rest := RemoveTags(s[1..]);
      assert r == [s[0]] + rest;
      assert s[0] == '<' ==> '>' !in s[1..];
      forall i, j | 0 <= i < j < |r| && r[i] == '<' ensures r[j] != '>' {
        assert r[j] == rest[j - 1];
        if i > 0 {
          assert r[i] == rest[i - 1];
        } else {
          assert rest[j - 1] in rest;
        }
      }
    }
  }

  /** Text without a `<` has no tag to remove. */
  lemma {:induction false} PlainTextKept(s: string)
    requires '<' !in s
    ensures RemoveTags(s) == s
  {
    if s != [] {
      PlainTextKept(s[1..]);
    }
  }

  /** A tag `<…>` (no `>` inside) is removed, and the text before it,
      which has no `<`, is kept. */
  lemma {:induction false} TagRemoved(before: string, inside: string, after: string)
    requires '<' !in before && '>' !in inside
    ensures RemoveTags(before + Tag(inside, after)) == before + RemoveTags(after)
  {
    var tag := Tag(inside, after);
    if before == [] {
      assert before + tag == tag;
      assert tag[0] == '<' && tag[1 + |inside|] == '>';
      assert RemoveTags(tag) == RemoveTags(AfterFirst(tag, '>'));
      TagAfterFirst(inside, after);
    } else {
      calc {
        RemoveTags(before + tag);
        { assert before + tag == [before[0]] + (before[1..] + tag); }
        RemoveTags([before[0]] + (before[1..] + tag));
        { assert before[0] in before; KeptHead(before[0], before[1..] + tag); }
        [before[0]] + RemoveTags(before[1..] + tag);
        { TagRemoved(before[1..], inside, after); }
        [before[0]] + (before[1..] + RemoveTags(after));
        { assert [before[0]] + before[1..] == before; }
        before + RemoveTags(after);
      }
    }
  }

  /** `<`, the tag's inside, `>`, and the text after the tag. */
  function Tag(inside: string, after: string): string {
    ['<'] + inside + ['>'] + after
  }

  /** A character other than `<` is kept. */
  lemma KeptHead(c: char, rest: string)
    requires c != '<'
    ensures RemoveTags([c] + rest) == [c] + RemoveTags(rest)
  {
    assert ([c] + rest)[0] == c && ([c] + rest)[1..] == rest;
  }

  lemma TagAfterFirst(inside: string, after: string)
    requires '>' !in inside
    ensures AfterFirst(Tag(inside, after), '>') == after
  {
    var s := Tag(inside, after);
    assert s[1 + |inside|] == '>';
    assert forall m :: 0 <= m < 1 + |inside| ==> s[m] != '>';
    assert s[2 + |inside|..] == after;
  }

  /** The entity decoding, in the order of the replace calls: `&nbsp;`,
      `&amp;`, `&lt;`, `&gt;`, `&quot;`, `&#39;`. */
  function DecodeEntities(s: string): string {
    var nbsp := ReplaceAll(s, "&nbsp;", " ");
    var amp := ReplaceAll(nbsp, "&amp;", "&");
    var lt := ReplaceAll(amp, "&lt;", "<");
    var gt := ReplaceAll(lt, "&gt;", ">");
    var quot := ReplaceAll(gt, "&quot;", "\"");
    ReplaceAll(quot, "&#39;", "'")
  }

  /** stripHtmlTags: null, undefined and the empty string give "". */
  function StripHtmlTags(html: Option<string>): string {
    if html.None? || html.value == "" then ""
    else Trim(DecodeEntities(RemoveTags(html.value)))
  }

  /** Missing or empty HTML is the empty text. */
  lemma StripMissing()
    ensures StripHtmlTags(None) == "" && StripHtmlTags(Some("")) == ""
  {
  }

  /** A pattern whose first character is not in the text does not occur. */
  lemma HeadAbsent(s: string, pat: string)
    requires pat != [] && pat[0] !in s
    ensures !Includes(s, pat)
  {
    forall i | 0 <= i <= |s| - |pat| ensures !OccursAt(s, pat, i) {
      assert s[i] in s && s[i..i + |pat|][0] == s[i];
    }
  }

  lemma MismatchAt(s: string, pat: string, i: nat, k: nat)
    requires i <= |s| - |pat| && k < |pat| && s[i + k] != pat[k]
    ensures !OccursAt(s, pat, i)
  {
    assert s[i..i + |pat|][k] == s[i + k];
  }

  /** One occurrence at the front is replaced. */
  lemma ReplaceFront(pat: string, rest: string, rep: string)
    requires pat != []
    ensures ReplaceAll(pat + rest, pat, rep) == rep + ReplaceAll(rest, pat, rep)
  {
    assert (pat + rest)[..|pat|] == pat && (pat + rest)[|pat|..] == rest;
  }

  /** A character that does not start an occurrence is kept. */
  lemma KeepFront(c: char, rest: string, pat: string, rep: string)
    requires pat != [] && c != pat[0]
    ensures ReplaceAll([c] + rest, pat, rep) == [c] + ReplaceAll(rest, pat, rep)
  {
    assert ([c] + rest)[1..] == rest;
  }

  /** Text without an `&` contains no entity. */
  lemma NoEntities(s: string)
    requires '&' !in s
    ensures DecodeEntities(s) == s
  {
    HeadAbsent(s, "&nbsp;");
    ReplaceAllAbsent(s, "&nbsp;", " ");
    HeadAbsent(s, "&amp;");
    ReplaceAllAbsent(s, "&amp;", "&");
    HeadAbsent(s, "&lt;");
    ReplaceAllAbsent(s, "&lt;", "<");
    HeadAbsent(s, "&gt;");
    ReplaceAllAbsent(s, "&gt;", ">");
    HeadAbsent(s, "&quot;");
    ReplaceAllAbsent(s, "&quot;", "\"");
    HeadAbsent(s, "&#39;");
    ReplaceAllAbsent(s, "&#39;", "'");
  }

  /** Plain text (no `<`, no `&`) is only trimmed. */
  lemma PlainTextTrimmed(s: string)
    requires '<' !in s && '&' !in s
    ensures StripHtmlTags(Some(s)) == Trim(s)
  {
    PlainTextKept(s);
    NoEntities(s);
  }

  /** Text without the pattern's first character passes through a
      replaceAll unchanged, whatever follows it. */
  lemma {:induction false} KeepPrefix(x: string, rest: string, pat: string, rep: string)
    requires pat != [] && pat[0] !in x
    ensures ReplaceAll(x + rest, pat, rep) == x + ReplaceAll(rest, pat, rep)
  {
    if x == [] {
      assert x + rest == rest;
    } else {
      assert x + rest == [x[0]] + (x[1..] + rest);
      KeepFront(x[0], x[1..] + rest, pat, rep);
      KeepPrefix(x[1..], rest, pat, rep);
      assert [x[0]] + (x[1..] + ReplaceAll(rest, pat, rep)) == x + ReplaceAll(rest, pat, rep);
    }
  }

  /** An entity `&…;` and the entities of the chain: each is `&` followed by
      text without `&`, and two different ones differ at their second
      character. */
  predicate IsEntity(e: string) {
    |e| >= 2 && e[0] == '&' && '&' !in e[1..]
  }

  /** A replace call of the chain turns an entity at the front into its
      replacement when it is that call's entity, and keeps it otherwise. */
  lemma ReplaceEntity(e: string, rest: string, pat: string, rep: string)
    requires IsEntity(e) && IsEntity(pat) && (e == pat || e[1] != pat[1])
    ensures ReplaceAll(e + rest, pat, rep) == (if e == pat then rep else e) + ReplaceAll(rest, pat, rep)
  {
    if e == pat {
      ReplaceFront(pat, rest, rep);
    } else {
      var s := e + rest;
      assert s == [e[0]] + (e[1..] + rest);
      NotStartingHere(e, rest, pat);
      SkipFront(s, pat, rep);
      KeepPrefix(e[1..], rest, pat, rep);
      assert [e[0]] + (e[1..] + ReplaceAll(rest, pat, rep)) == e + ReplaceAll(rest, pat, rep);
    }
  }

  lemma NotStartingHere(e: string, rest: string, pat: string)
    requires |e| >= 2 && |pat| >= 2 && e[1] != pat[1]
    ensures !StartsWith(e + rest, pat)
  {
    if |pat| <= |e + rest| {
      assert (e + rest)[..|pat|][1] == e[1];
    }
  }

  /** A character that does not start an occurrence is kept. */
  lemma SkipFront(s: string, pat: string, rep: string)
    requires s != [] && pat != [] && !StartsWith(s, pat)
    ensures ReplaceAll(s, pat, rep) == [s[0]] + ReplaceAll(s[1..], pat, rep)
  {
  }

  /** Entities are decoded after the tags are removed, so an escaped tag
      survives as a tag: `&lt;b&gt;` becomes `<b>`. */
  lemma EscapedTagSurvives(name: string)
    requires '&' !in name && '<' !in name
    ensures StripHtmlTags(Some("&lt;" + name + "&gt;")) == "<" + name + ">"
  {
    var s := "&lt;" + name + "&gt;";
    assert '<' !in s by {
      assert s == "&lt;" + (name + "&gt;");
    }
    PlainTextKept(s);
    EscapedTagDecodes(name);
    var r := "<" + name + ">";
    assert r[0] == '<' && r[|r| - 1] == '>';
    TrimKeeps(r);
    assert |s| > 0;
    StripSteps(s, r);
  }

  /** StripHtmlTags, read off its three stages. */
  lemma StripSteps(s: string, r: string)
    requires s != "" && RemoveTags(s) == s && DecodeEntities(s) == r && Trim(r) == r
    ensures StripHtmlTags(Some(s)) == r
  {
  }

  /** The chain on `&lt;` + name + `&gt;`, one stage after another. */
  lemma EscapedTagDecodes(name: string)
    requires '&' !in name
    ensures DecodeEntities("&lt;" + name + "&gt;") == "<" + name + ">"
  {
    var lt, gt := "&lt;", "&gt;";
    var s := lt + name + gt;
    assert s == lt + (name + gt);
    EntityAround(lt, name, gt, "&nbsp;", " ");
    EntityAround(lt, name, gt, "&amp;", "&");
    EntityAround(lt, name, gt, "&lt;", "<");
    var s3 := "<" + name + gt;
    assert s3 == ("<" + name) + gt;
    KeepPrefix("<" + name, gt, "&gt;", ">");
    ReplaceEntity(gt, [], "&gt;", ">");
    var s4 := "<" + name + ">";
    assert ReplaceAll(s3, "&gt;", ">") == s4;
    NoEntityLeft(s4);
  }

  /** One stage of the chain on entity + text + entity. */
  lemma EntityAround(e1: string, x: string, e2: string, pat: string, rep: string)
    requires IsEntity(e1) && IsEntity(e2) && IsEntity(pat) && '&' !in x
    requires (e1 == pat || e1[1] != pat[1]) && (e2 == pat || e2[1] != pat[1])
    ensures ReplaceAll(e1 + x + e2, pat, rep)
      == (if e1 == pat then rep else e1) + x + (if e2 == pat then rep else e2)
  {
    var r1 := if e1 == pat then rep else e1;
    var r2 := if e2 == pat then rep else e2;
    calc {
      ReplaceAll(e1 + x + e2, pat, rep);
      { assert e1 + x + e2 == e1 + (x + e2); }
      ReplaceAll(e1 + (x + e2), pat, rep);
      { ReplaceEntity(e1, x + e2, pat, rep); }
      r1 + ReplaceAll(x + e2, pat, rep);
      { KeepPrefix(x, e2, pat, rep); }
      r1 + (x + ReplaceAll(e2, pat, rep));
      { assert e2 + [] == e2; ReplaceEntity(e2, [], pat, rep); assert r2 + [] == r2; }
      r1 + (x + r2);
      { assert r1 + (x + r2) == r1 + x + r2; }
      r1 + x + r2;
    }
  }

  lemma TrimKeeps(s: string)
    requires NoSpaceAtEdges(s)
    ensures Trim(s) == s
  {
    if s != [] {
      assert TrimStart(s) == s;
    }
  }

  /** The last entities of the chain leave text without an `&` alone. */
  lemma NoEntityLeft(s: string)
    requires '&' !in s
    ensures ReplaceAll(s, "&gt;", ">") == s
    ensures ReplaceAll(s, "&quot;", "\"") == s
    ensures ReplaceAll(s, "&#39;", "'") == s
  {
    HeadAbsent(s, "&gt;");
    ReplaceAllAbsent(s, "&gt;", ">");
    HeadAbsent(s, "&quot;");
    ReplaceAllAbsent(s, "&quot;", "\"");
    HeadAbsent(s, "&#39;");
    ReplaceAllAbsent(s, "&#39;", "'");
  }

  /** `&amp;` is decoded before the other entities, so a double-escaped
      `<` comes out as `<`: `&amp;lt;b` becomes `<b`. */
  lemma AmpersandFirst(x: string)
    requires '&' !in x && '<' !in x
    requires x == [] || !IsSpace(x[|x| - 1])
    ensures StripHtmlTags(Some("&amp;lt;" + x)) == "<" + x
  {
    var s := "&amp;lt;" + x;
    assert s == "&amp;" + ("lt;" + x);
    assert '<' !in s;
    PlainTextKept(s);
    DoubleEscapedDecodes(x);
    var r := "<" + x;
    assert r[0] == '<';
    TrimKeeps(r);
    assert |s| > 0;
    StripSteps(s, r);
  }

  lemma DoubleEscapedDecodes(x: string)
    requires '&' !in x
    ensures DecodeEntities("&amp;lt;" + x) == "<" + x
  {
    var s := "&amp;lt;" + x;
    NbspAbsent(x);
    AmpDecoded(x);
    LtDecoded(x);
    NoEntityLeft("<" + x);
  }

  lemma NbspAbsent(x: string)
    requires '&' !in x
    ensures ReplaceAll("&amp;lt;" + x, "&nbsp;", " ") == "&amp;lt;" + x
  {
    var amp, lt := "&amp;", "lt;";
    assert "&amp;lt;" + x == amp + (lt + x);
    assert '&' !in lt + x;
    ReplaceEntity(amp, lt + x, "&nbsp;", " ");
    HeadAbsent(lt + x, "&nbsp;");
    ReplaceAllAbsent(lt + x, "&nbsp;", " ");
  }

  lemma AmpDecoded(x: string)
    requires '&' !in x
    ensures ReplaceAll("&amp;lt;" + x, "&amp;", "&") == "&lt;" + x
  {
    var amp, lt := "&amp;", "lt;";
    calc {
      ReplaceAll("&amp;lt;" + x, "&amp;", "&");
      { assert "&amp;lt;" + x == amp + (lt + x); }
      ReplaceAll(amp + (lt + x), "&amp;", "&");
      { ReplaceEntity(amp, lt + x, "&amp;", "&"); }
      "&" + ReplaceAll(lt + x, "&amp;", "&");
      { assert '&' !in lt + x; HeadAbsent(lt + x, "&amp;"); ReplaceAllAbsent(lt + x, "&amp;", "&"); }
      "&" + (lt + x);
      { assert "&" + (lt + x) == "&lt;" + x; }
      "&lt;" + x;
    }
  }

  lemma LtDecoded(x: string)
    requires '&' !in x
    ensures ReplaceAll("&lt;" + x, "&lt;", "<") == "<" + x
  {
    ReplaceEntity("&lt;", x, "&lt;", "<");
    HeadAbsent(x, "&lt;");
    ReplaceAllAbsent(x, "&lt;", "<");
  }

  // ---------------------------------------------------------------------
  // filteredResources

  /** A banking resource as the list receives it; a summary or content
      that is null or undefined is None, and so are null tags. */
  datatype Resource = Resource(
    id: string, title: string, slug: string, category: string, resourceType: string,
    tags: Option<seq<string>>, summary: Option<string>, content: Option<string>, updatedAt: string)

  const AllCategories := "All"

  predicate MatchesCategory(r: Resource, selected: string) {
    selected == AllCategories || r.category == selected
  }

  /** `x.toLowerCase().includes(searchLower)` */
  predicate ContainsIgnoringCase(x: string, search: string) {
    Includes(Lower(x), Lower(search))
  }

  predicate SomeTagContains(tags: seq<string>, search: string) {
    exists t | t in tags :: ContainsIgnoringCase(t, search)
  }

  /** An empty search matches everything; otherwise the search text must
      occur, ignoring case, in the title, the plain-text summary, the
      plain-text content or one of the tags. */
  predicate MatchesSearch(r: Resource, search: string) {
    || search == ""
    || ContainsIgnoringCase(r.title, search)
    || ContainsIgnoringCase(StripHtmlTags(r.summary), search)
    || ContainsIgnoringCase(StripHtmlTags(r.content), search)
    || SomeTagContains(if r.tags.Some? then r.tags.value else [], search)
  }

  predicate Kept(r: Resource, selected: string, search: string) {
    MatchesCategory(r, selected) && MatchesSearch(r, search)
  }

  /** filteredResources */
  function FilterResources(rs: seq<Resource>, selected: string, search: string): (kept: seq<Resource>)
    ensures |kept| <= |rs|
    ensures forall r :: r in kept <==> r in rs && Kept(r, selected, search)
  {
    if rs == [] then []
    else (if Kept(rs[0], selected, search) then [rs[0]] else []) + FilterResources(rs[1..], selected, search)
  }

  /** Filtering a list in two pieces filters each piece in place: the
      resources kept keep their order. */
  lemma {:induction false} FilterAppend(a: seq<Resource>, b: seq<Resource>, selected: string, search: string)
    ensures FilterResources(a + b, selected, search) == FilterResources(a, selected, search) + FilterResources(b, selected, search)
  {
    if a == [] {
      assert a + b == b;
    } else {
      assert (a + b)[0] == a[0] && (a + b)[1..] == a[1..] + b;
      FilterAppend(a[1..], b, selected, search);
      var head := if Kept(a[0], selected, search) then [a[0]] else [];
      assert head + (FilterResources(a[1..], selected, search) + FilterResources(b, selected, search))
        == (head + FilterResources(a[1..], selected, search)) + FilterResources(b, selected, search);
    }
  }

  /** `sub` is `s` with some elements left out, the others in their order. */
  predicate Subsequence(sub: seq<Resource>, s: seq<Resource>)
    decreases |s|
  {
    if sub == [] then true
    else if s == [] then false
    else (sub[0] == s[0] && Subsequence(sub[1..], s[1..])) || Subsequence(sub, s[1..])
  }

  /** The kept resources are a subsequence of the list. */
  lemma {:induction false} FilterSubsequence(rs: seq<Resource>, selected: string, search: string)
    ensures Subsequence(FilterResources(rs, selected, search), rs)
  {
    if rs != [] {
      FilterSubsequence(rs[1..], selected, search);
      var tail := FilterResources(rs[1..], selected, search);
      if Kept(rs[0], selected, search) {
        assert FilterResources(rs, selected, search) == [rs[0]] + tail;
        assert ([rs[0]] + tail)[1..] == tail;
      } else {
        assert FilterResources(rs, selected, search) == tail;
      }
    }
  }

  /** With "All" selected and an empty search, nothing is filtered out. */
  lemma {:induction false} FilterNothing(rs: seq<Resource>)
    ensures FilterResources(rs, AllCategories, "") == rs
  {
    if rs != [] {
      FilterNothing(rs[1..]);
    }
  }

  /** Filtering again with the same choice changes nothing. */
  lemma {:induction false} FilterIdempotent(rs: seq<Resource>, selected: string, search: string)
    ensures FilterResources(FilterResources(rs, selected, search), selected, search) == FilterResources(rs, selected, search)
  {
    if rs != [] {
      var head := if Kept(rs[0], selected, search) then [rs[0]] else [];
      FilterAppend(head, FilterResources(rs[1..], selected, search), selected, search);
      FilterIdempotent(rs[1..], selected, search);
    }
  }

  lemma LowerUpper(s: string)
    ensures Lower(Upper(s)) == Lower(s)
  {
  }

  /** Case does not matter: typing the search in capitals keeps the same
      resources. */
  lemma SearchIgnoresCase(r: Resource, selected: string, search: string)
    ensures Kept(r, selected, Upper(search)) <==> Kept(r, selected, search)
  {
    LowerUpper(search);
  }

  /** A title containing the search text as typed matches it. */
  lemma TitleMatch(r: Resource, search: string)
    requires Includes(r.title, search)
    ensures MatchesSearch(r, search)
  {
    var i :| 0 <= i <= |r.title| - |search| && OccursAt(r.title, search, i);
    assert Lower(r.title)[i..i + |search|] == Lower(search);
    assert OccursAt(Lower(r.title), Lower(search), i);
  }
}
