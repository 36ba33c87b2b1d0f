/** The id a rule gets from its name (crates/nimon-hub/src/config.rs:859-876). */
module RuleSlug {
  import opened Basics

  predicate IsAlnum(c: char) { '0' <= c <= '9' || 'A' <= c <= 'Z' || 'a' <= c <= 'z' }

  predicate IsLower(c: char) { '0' <= c <= '9' || 'a' <= c <= 'z' }

  function Lower(c: char): (r: char)
    ensures IsAlnum(c) ==> IsLower(r) && (IsLower(c) ==> r == c)
  {
    if 'A' <= c <= 'Z' then (c as int + 32) as char else c
  }

  function TrimDashes(s: string): string
    decreases |s|
  {
    if s != [] && s[0] == '-' then TrimDashes(s[1..])
    else if s != [] && s[|s| - 1] == '-' then TrimDashes(s[..|s| - 1])
    else s
  }

  /** The text that has been pushed after `s`. */
  function Pushed(s: string): string {
    if s == [] then [] else PushedOne(Pushed(s[..|s| - 1]), s[|s| - 1])
  }

  function PushedOne(slug: string, c: char): string {
    if IsAlnum(c) then slug + [Lower(c)]
    else if slug != [] && slug[|slug| - 1] == '-' then slug
    else slug + ['-']
  }

  function Slug(name: string): string {
    var slug := TrimDashes(Pushed(Trim(name)));
    if slug == [] then "rule" else slug
  }

  method MakeSlug(name: string) returns (slug: string)
    ensures slug == Slug(name)
  {
    var text := Trim(name);
    slug := "";
    for i := 0 to |text|
      invariant slug == Pushed(text[..i])
    {
      assert text[..i + 1][..i] == text[..i];
      var c := text[i];
      if IsAlnum(c) {
        slug := slug + [Lower(c)];
      } else if !(|slug| > 0 && slug[|slug| - 1] == '-') {
        slug := slug + ['-'];
      }
    }
    assert text[..|text|] == text;
    slug := TrimDashes(slug);
    if slug == "" {
      slug := "rule";
    }
  }

  // ------------------------------------------------------------------ the words of a name

  predicate GoodWord(w: string) { w != [] && forall i :: 0 <= i < |w| ==> IsLower(w[i]) }

  ghost predicate GoodWords(words: seq<string>) { forall i :: 0 <= i < |words| ==> GoodWord(words[i]) }

  /** The runs of letters and digits so far: those that have ended, and the one that may go on. */
  datatype Runs = Runs(closed: seq<string>, current: string)

  /** The maximal runs of letters and digits, in lower case. */
  function RunsOf(s: string): (r: Runs)
    ensures GoodWords(r.closed) && (r.current == "" || GoodWord(r.current))
  {
    if s == [] then Runs([], "") else OneMore(RunsOf(s[..|s| - 1]), s[|s| - 1])
  }

  function OneMore(r: Runs, c: char): Runs {
    if IsAlnum(c) then Runs(r.closed, r.current + [Lower(c)])
    else if r.current == "" then r
    else Runs(r.closed + [r.current], "")
  }

  function Words(s: string): (words: seq<string>)
    ensures GoodWords(words)
  {
    var r := RunsOf(s);
    if r.current == "" then r.closed else r.closed + [r.current]
  }

  /** Every word followed by a dash. */
  function Dashed(words: seq<string>): string {
    if words == [] then "" else Dashed(words[..|words| - 1]) + words[|words| - 1] + ['-']
  }

  function Join(words: seq<string>): string {
    if words == [] then "" else Dashed(words[..|words| - 1]) + words[|words| - 1]
  }

  function Lead(s: string): string { if s != [] && !IsAlnum(s[0]) then ['-'] else [] }

  /** The text of the runs, behind a dash that is no word's. */
  function Text(lead: string, r: Runs): string { lead + Dashed(r.closed) + r.current }

  lemma TextOneMore(lead: string, r: Runs, c: char)
    requires GoodWords(r.closed) && (r.current == "" || GoodWord(r.current))
    requires r.closed == [] && r.current == "" ==> lead == ['-']
    ensures Text(lead, OneMore(r, c)) == PushedOne(Text(lead, r), c)
  {
    if IsAlnum(c) {
      assert Text(lead, OneMore(r, c)) == Text(lead, r) + [Lower(c)];
    } else if r.current == "" {
      assert Text(lead, r) == lead + Dashed(r.closed);
    } else {
      assert IsLower(r.current[|r.current| - 1]);
      assert (r.closed + [r.current])[..|r.closed|] == r.closed;
      assert Text(lead, OneMore(r, c)) == Text(lead, r) + ['-'];
    }
  }

  /** Before the trimming: every closed word with its dash, and a leading dash that is no word's. */
  lemma {:induction false} PushedIsText(s: string)
    ensures Pushed(s) == Text(Lead(s), RunsOf(s))
    ensures var r := RunsOf(s); s != [] && r.closed == [] && r.current == "" ==> Lead(s) == ['-']
  {
    if |s| == 1 {
      assert s[..0] == [];
    } else if s != [] {
      PushedIsText(s[..|s| - 1]);
      TextOneMore(Lead(s), RunsOf(s[..|s| - 1]), s[|s| - 1]);
    }
  }

  /** Joined words begin and end inside a word. */
  lemma {:induction false} DashedStart(words: seq<string>)
    requires GoodWords(words) && words != []
    ensures IsLower(Dashed(words)[0])
  {
    if |words| > 1 {
      DashedStart(words[..|words| - 1]);
    }
  }

  lemma JoinEnds(words: seq<string>)
    requires GoodWords(words) && words != []
    ensures var t := Join(words); t != [] && IsLower(t[0]) && IsLower(t[|t| - 1])
  {
    if |words| > 1 {
      DashedStart(words[..|words| - 1]);
    }
  }

  lemma TrimDashesCore(lead: string, t: string, trail: string)
    requires t != [] && IsLower(t[0]) && IsLower(t[|t| - 1])
    requires (lead == [] || lead == ['-']) && (trail == [] || trail == ['-'])
    ensures TrimDashes(lead + t + trail) == t
  {
    assert TrimDashes(t) == t;
    assert TrimDashes(t + trail) == t by {
      assert trail == [] ==> t + trail == t;
      assert trail != [] ==> (t + trail)[..|t|] == t;
    }
    assert lead == [] ==> lead + t + trail == t + trail;
    assert lead != [] ==> (lead + t + trail)[1..] == t + trail;
  }

  lemma {:induction false} RunsWithoutFirst(s: string)
    requires s != [] && !IsAlnum(s[0])
    ensures RunsOf(s) == RunsOf(s[1..])
  {
    if |s| > 1 {
      RunsWithoutFirst(s[..|s| - 1]);
      assert s[..|s| - 1][1..] == s[1..][..|s| - 2];
    }
  }

  lemma {:induction false} WordsTrimmed(s: string)
    ensures Words(Trim(s)) == Words(s)
    decreases |s|
  {
    if s != [] {
      if IsSpace(s[0]) {
        RunsWithoutFirst(s);
        WordsTrimmed(s[1..]);
      } else if IsSpace(s[|s| - 1]) {
        WordsTrimmed(s[..|s| - 1]);
      }
    }
  }

  /** The slug is the words of the name joined by dashes; a name without any becomes "rule". */
  lemma SlugIsWords(name: string)
    ensures Slug(name) == if Words(name) == [] then "rule" else Join(Words(name))
  {
    var text := Trim(name);
    WordsTrimmed(name);
    PushedIsText(text);
    TextTrimmed(Lead(text), RunsOf(text), Words(text));
  }

  lemma TextTrimmed(lead: string, r: Runs, words: seq<string>)
    requires GoodWords(words) && words == if r.current == "" then r.closed else r.closed + [r.current]
    requires lead == [] || lead == ['-']
    ensures TrimDashes(Text(lead, r)) == Join(words)
    ensures Join(words) == "" <==> words == []
  {
    if words == [] {
      assert Text(lead, r) == lead;
      assert ['-'][1..] == [];
    } else {
      JoinEnds(words);
      var trail := if r.current == "" then ['-'] else [];
      TextIsJoin(lead, r, words, trail);
      TrimDashesCore(lead, Join(words), trail);
    }
  }

  lemma TextIsJoin(lead: string, r: Runs, words: seq<string>, trail: string)
    requires words != [] && words == if r.current == "" then r.closed else r.closed + [r.current]
    requires trail == if r.current == "" then ['-'] else []
    ensures Text(lead, r) == lead + Join(words) + trail
  {
    if r.current != "" {
      assert words[..|words| - 1] == r.closed;
    }
  }

  // ------------------------------------------------------------------ what a slug looks like

  ghost predicate IsSlug(t: string) {
    && t != []
    && (forall i :: 0 <= i < |t| ==> IsLower(t[i]) || t[i] == '-')
    && t[0] != '-' && t[|t| - 1] != '-'
    && forall i :: 0 < i < |t| ==> t[i - 1] != '-' || t[i] != '-'
  }

  /** A slug with one more dash, to go on from. */
  lemma {:induction false} DashedIsSlug(words: seq<string>)
    requires words != [] && GoodWords(words)
    ensures IsSlug(Join(words)) && Dashed(words) == Join(words) + ['-']
  {
    var init, w := words[..|words| - 1], words[|words| - 1];
    if |words| > 1 {
      DashedIsSlug(init);
      SlugExtended(Join(init), w);
    } else {
      assert Join(words) == w;
    }
  }

  lemma SlugExtended(t: string, w: string)
    requires IsSlug(t) && GoodWord(w)
    ensures IsSlug(t + ['-'] + w)
  {
    var s := t + ['-'] + w;
    assert forall i :: 0 <= i < |t| ==> s[i] == t[i];
    assert forall i :: 0 <= i < |w| ==> s[|t| + 1 + i] == w[i];
  }

  lemma SlugIsSlug(name: string)
    ensures IsSlug(Slug(name))
  {
    SlugIsWords(name);
    if Words(name) != [] {
      DashedIsSlug(Words(name));
    }
  }

  lemma PushedSnoc(s: string, c: char)
    ensures Pushed(s + [c]) == PushedOne(Pushed(s), c)
  {
    assert (s + [c])[..|s|] == s;
  }

  lemma SlugGrows(t: string, n: nat)
    requires IsSlug(t) && n < |t|
    ensures PushedOne(t[..n], t[n]) == t[..n] + [t[n]]
  {
  }

  lemma {:induction false} PushedKeepsSlug(t: string, n: nat)
    requires IsSlug(t) && n <= |t|
    ensures Pushed(t[..n]) == t[..n]
  {
    if n > 0 {
      var init := t[..n - 1];
      PushedKeepsSlug(t, n - 1);
      PushedSnoc(init, t[n - 1]);
      SlugGrows(t, n - 1);
      assert t[..n] == init + [t[n - 1]];
    }
  }

  /** The names that are their own slug are exactly the well-formed ones: making a slug twice changes nothing. */
  lemma FixedIff(t: string)
    ensures Slug(t) == t <==> IsSlug(t)
    ensures Slug(Slug(t)) == Slug(t)
  {
    SlugIsSlug(t);
    if IsSlug(t) {
      SlugFixed(t);
    }
    SlugFixed(Slug(t));
  }

  lemma SlugFixed(t: string)
    requires IsSlug(t)
    ensures Slug(t) == t
  {
    PushedKeepsSlug(t, |t|);
    assert t[..|t|] == t;
    assert Trim(t) == t;
  }
}
