/** Company slugs: the normaliser and the search for a free slug at registration. */
module Slug {
  import opened Wrappers
  import opened Text

  const MAX_SLUG := 80

  // ---------- the normaliser ----------

  predicate IsHyphen(c: char) {
    c == '-'
  }

  /** The runs of whitespace and underscores that become one hyphen. */
  predicate IsGap(c: char) {
    IsSpace(c) || c == '_'
  }

  predicate IsSlugChar(c: char) {
    'a' <= c <= 'z' || IsDigit(c) || IsHyphen(c)
  }

  /** `[\w\s-]` on lower-case ASCII. */
  predicate IsKept(c: char) {
    IsSlugChar(c) || 'A' <= c <= 'Z' || IsGap(c)
  }

  function Keep(s: string): string {
    if s == [] then [] else (if IsKept(s[0]) then [s[0]] else []) + Keep(s[1..])
  }

  function Hyphenate(s: string, inGap: bool): string {
    if s == [] then []
    else if IsGap(s[0]) then (if inGap then [] else ['-']) + Hyphenate(s[1..], true)
    else [s[0]] + Hyphenate(s[1..], false)
  }

  /** The slug before truncation. */
  function Uncut(name: string): string {
    Trim(Hyphenate(Keep(Lower(name)), false), IsHyphen)
  }

  function Cut(s: string): string {
    if |s| <= MAX_SLUG then s else s[..MAX_SLUG]
  }

  function Slugify(name: string): string {
    var slug := Cut(Uncut(name));
    if slug == "" then "company" else slug
  }

  ghost predicate SlugText(s: string) {
    forall i | 0 <= i < |s| :: IsSlugChar(s[i])
  }

  ghost predicate IsSlug(s: string) {
    0 < |s| <= 80 && SlugText(s) && s[0] != '-'
  }

  lemma {:induction false} KeepLower(s: string)
    requires forall i | 0 <= i < |s| :: !('A' <= s[i] <= 'Z')
    ensures forall i | 0 <= i < |Keep(s)| :: IsSlugChar(Keep(s)[i]) || IsGap(Keep(s)[i])
  {
    if s != [] {
      KeepLower(s[1..]);
    }
  }

  lemma {:induction false} HyphenateIsSlugText(s: string, inGap: bool)
    requires forall i | 0 <= i < |s| :: IsSlugChar(s[i]) || IsGap(s[i])
    ensures SlugText(Hyphenate(s, inGap))
  {
    if s != [] {
      HyphenateIsSlugText(s[1..], true);
      HyphenateIsSlugText(s[1..], false);
    }
  }

  lemma {:induction false} SlugTextFixed(s: string)
    requires SlugText(s)
    ensures Keep(s) == s && Hyphenate(s, true) == s && Hyphenate(s, false) == s
  {
    if s != [] {
      assert IsSlugChar(s[0]);
      SlugTextFixed(s[1..]);
    }
  }

  lemma UncutShape(name: string)
    ensures SlugText(Uncut(name)) && Trimmed(Uncut(name), IsHyphen)
    ensures SlugText(name) ==> Uncut(name) == Trim(name, IsHyphen)
  {
    var kept := Keep(Lower(name));
    KeepLower(Lower(name));
    HyphenateIsSlugText(kept, false);
    TrimIsSlugText(Hyphenate(kept, false));
    if SlugText(name) {
      SlugTextLower(name);
      SlugTextFixed(name);
    }
  }

  lemma SlugTextLower(s: string)
    requires SlugText(s)
    ensures Lower(s) == s
  {
    assert forall i | 0 <= i < |s| :: IsSlugChar(s[i]);
  }

  lemma TrimIsSlugText(s: string)
    requires SlugText(s)
    ensures SlugText(Trim(s, IsHyphen)) && Trimmed(Trim(s, IsHyphen), IsHyphen)
  {
    TrimShape(s, IsHyphen);
    hide Trim;
  }

  /** Every name gives a non-empty slug of at most 80 characters a-z, 0-9 and
      hyphen that does not start with a hyphen. */
  lemma SlugifyIsSlug(name: string)
    ensures IsSlug(Slugify(name))
  {
    UncutShape(name);
  }

  lemma {:induction false} TrimRightKeepsHead(s: string, drop: char -> bool)
    requires s != [] && !drop(s[0])
    ensures TrimRight(s, drop) != [] && TrimRight(s, drop)[0] == s[0]
  {
    if drop(s[|s| - 1]) {
      TrimRightKeepsHead(s[..|s| - 1], drop);
    }
  }

  /** On a slug, a second application only strips the hyphens at its end. */
  lemma SlugifyOfSlug(s: string)
    requires IsSlug(s)
    ensures Slugify(s) == TrimRight(s, IsHyphen)
    ensures Slugify(s) == s <==> s[|s| - 1] != '-'
  {
    hide Uncut, SlugText;
    UncutShape(s);
    TrimRightKeepsHead(s, IsHyphen);
    TrimRightShape(s, IsHyphen);
    assert TrimLeft(s, IsHyphen) == s;
    assert Uncut(s) == TrimRight(s, IsHyphen);
  }

  /** The second application strips what truncation left, the third changes
      nothing, and the second already changes nothing exactly when truncation
      did not stop on a hyphen. */
  lemma SlugifyAgain(name: string)
    ensures Slugify(Slugify(name)) == TrimRight(Slugify(name), IsHyphen)
    ensures Slugify(Slugify(Slugify(name))) == Slugify(Slugify(name))
    ensures Slugify(Slugify(name)) == Slugify(name)
            <==> |Uncut(name)| <= MAX_SLUG || Uncut(name)[MAX_SLUG - 1] != '-'
  {
    SlugifyIsSlug(name);
    SlugifyOfSlug(Slugify(name));
    UncutShape(name);
    var again := Slugify(Slugify(name));
    TrimRightShape(Slugify(name), IsHyphen);
    SlugifyIsSlug(Slugify(name));
    SlugifyOfSlug(again);
  }

  /** Truncation can stop on a hyphen: 79 letters, a space, one more letter. */
  lemma SlugifyNotIdempotent()
    ensures exists name :: Slugify(Slugify(name)) != Slugify(name)
  {
    var name := seq(79, i => 'a') + "-b";
    assert name[80] == 'b';
    UncutShape(name);
    TrimOfTrimmed(name, IsHyphen);
    assert Uncut(name)[MAX_SLUG - 1] == '-';
    SlugifyAgain(name);
  }

  // ---------- what becomes of a name ----------

  predicate IsAlphanumeric(c: char) {
    'a' <= c <= 'z' || 'A' <= c <= 'Z' || '0' <= c <= '9'
  }

  /** Letters and digits, perhaps with hyphens among them. */
  ghost predicate IsWord(w: string) {
    w != "" && forall c | c in w :: IsAlphanumeric(c) || c == '-'
  }

  /** A run of white space and underscores. */
  ghost predicate IsBreak(g: string) {
    g != "" && forall c | c in g :: 9 <= c as int <= 13 || 28 <= c as int <= 32 || c == '_'
  }

  /** The words with a break after each but the last. */
  function Phrase(words: seq<string>, breaks: seq<string>): string
    requires |breaks| + 1 == |words|
  {
    if |words| == 1 then words[0] else words[0] + breaks[0] + Phrase(words[1..], breaks[1..])
  }

  function LowerAll(words: seq<string>): seq<string> {
    if words == [] then [] else [Lower(words[0])] + LowerAll(words[1..])
  }

  /** What the normaliser has made of a text before trimming. */
  function Folded(s: string): string {
    Keep(Lower(s))
  }

  lemma KeepOneMore(c: char, t: string)
    ensures Keep([c] + t) == (if IsKept(c) then [c] else []) + Keep(t)
  {
    assert ([c] + t)[1..] == t;
  }

  lemma KeepNothing()
    ensures Keep("") == ""
  {
  }

  lemma {:induction false} KeepConcat(a: string, b: string)
    ensures Keep(a + b) == Keep(a) + Keep(b)
  {
    hide Keep, IsKept;
    if a == [] {
      KeepNothing();
      assert a + b == b;
    } else {
      var c, t := a[0], a[1..];
      KeepConcat(t, b);
      KeepOneMore(c, t);
      KeepOneMore(c, t + b);
      assert a == [c] + t && a + b == [c] + (t + b);
    }
  }

  lemma FoldedConcat(a: string, b: string)
    ensures Folded(a + b) == Folded(a) + Folded(b)
  {
    CaseConcat(a, b);
    KeepConcat(Lower(a), Lower(b));
  }

  lemma {:induction false} KeepAll(s: string)
    requires forall c | c in s :: IsKept(c)
    ensures Keep(s) == s
  {
    if s != [] {
      assert s[0] in s;
      KeepAll(s[1..]);
    }
  }

  lemma FoldedWord(w: string)
    requires IsWord(w)
    ensures Folded(w) == Lower(w) && Folded(w) != ""
    ensures forall c | c in Folded(w) :: IsSlugChar(c)
    ensures (Folded(w)[0] == '-' <==> w[0] == '-') && (Folded(w)[|w| - 1] == '-' <==> w[|w| - 1] == '-')
  {
    forall c | c in Lower(w) ensures IsSlugChar(c) {
      var i :| 0 <= i < |w| && Lower(w)[i] == c;
      assert w[i] in w;
    }
    KeepAll(Lower(w));
    assert w[0] in w && w[|w| - 1] in w;
  }

  lemma FoldedBreak(g: string)
    requires IsBreak(g)
    ensures Folded(g) == g && forall c | c in g :: IsGap(c)
  {
    assert forall i | 0 <= i < |g| :: g[i] in g;
    assert Lower(g) == g;
    KeepAll(g);
  }

  lemma {:induction false} HyphenateWord(w: string, rest: string, inGap: bool)
    requires w != "" && forall c | c in w :: IsSlugChar(c)
    ensures Hyphenate(w + rest, inGap) == w + Hyphenate(rest, false)
    decreases |w|
  {
    assert w[0] in w && (w + rest)[1..] == w[1..] + rest;
    if |w| == 1 {
      assert w[1..] + rest == rest;
    } else {
      HyphenateWord(w[1..], rest, false);
    }
  }

  lemma {:induction false} HyphenateBreak(g: string, rest: string, inGap: bool)
    requires g != "" && forall c | c in g :: IsGap(c)
    ensures Hyphenate(g + rest, inGap) == (if inGap then "" else "-") + Hyphenate(rest, true)
    decreases |g|
  {
    assert g[0] in g && (g + rest)[1..] == g[1..] + rest;
    if |g| == 1 {
      assert g[1..] + rest == rest;
    } else {
      HyphenateBreak(g[1..], rest, true);
    }
  }

  ghost predicate ArePhrase(words: seq<string>, breaks: seq<string>) {
    |breaks| + 1 == |words| && (forall w | w in words :: IsWord(w)) && (forall g | g in breaks :: IsBreak(g))
  }

  lemma {:induction false} HyphenatePhrase(words: seq<string>, breaks: seq<string>, inGap: bool)
    requires ArePhrase(words, breaks)
    ensures Hyphenate(Folded(Phrase(words, breaks)), inGap) == Join(LowerAll(words), '-')
    decreases |words|
  {
    var w := words[0];
    assert w in words;
    FoldedWord(w);
    if |words| == 1 {
      HyphenateWord(Folded(w), "", inGap);
      assert Folded(w) + "" == Folded(w) && Lower(w) + "" == Lower(w);
      assert LowerAll(words) == [Lower(w)];
    } else {
      var g, rest := breaks[0], Phrase(words[1..], breaks[1..]);
      assert g in breaks;
      FoldedBreak(g);
      FoldedConcat(g, rest);
      FoldedConcat(w, g + rest);
      assert w + g + rest == w + (g + rest);
      HyphenateWord(Folded(w), Folded(g) + Folded(rest), inGap);
      HyphenateBreak(Folded(g), Folded(rest), false);
      HyphenatePhrase(words[1..], breaks[1..], true);
      JoinTwo(Lower(w), LowerAll(words[1..]));
    }
  }

  lemma JoinTwo(p: string, parts: seq<string>)
    requires parts != []
    ensures Join([p] + parts, '-') == p + ("-" + Join(parts, '-'))
  {
    assert ([p] + parts)[1..] == parts;
  }

  predicate StartsWithHyphen(s: string) {
    s != "" && s[0] == '-'
  }

  predicate EndsWithHyphen(s: string) {
    s != "" && s[|s| - 1] == '-'
  }

  lemma {:induction false} JoinEnds(words: seq<string>, breaks: seq<string>)
    requires ArePhrase(words, breaks)
    ensures var s := Join(LowerAll(words), '-');
            && s != "" && (StartsWithHyphen(s) <==> StartsWithHyphen(words[0]))
            && (EndsWithHyphen(s) <==> EndsWithHyphen(words[|words| - 1]))
    decreases |words|
  {
    assert words[0] in words;
    FoldedWord(words[0]);
    if |words| == 1 {
      assert LowerAll(words) == [Lower(words[0])];
    } else {
      JoinEnds(words[1..], breaks[1..]);
      JoinTwo(Lower(words[0]), LowerAll(words[1..]));
    }
  }

  /** A name of words is slugged word by word: lower case, one hyphen for every
      break, whatever the break consists of. */
  lemma SlugOfWords(words: seq<string>, breaks: seq<string>)
    requires ArePhrase(words, breaks)
    requires !StartsWithHyphen(words[0]) && !EndsWithHyphen(words[|words| - 1])
    ensures Uncut(Phrase(words, breaks)) == Join(LowerAll(words), '-')
  {
    HyphenatePhrase(words, breaks, false);
    JoinEnds(words, breaks);
    TrimOfTrimmed(Join(LowerAll(words), '-'), IsHyphen);
  }

  /** A character that is no letter, digit, hyphen, white space or underscore leaves
      no trace. */
  lemma OthersLeaveNoTrace(a: string, c: char, b: string)
    requires !IsAlphanumeric(c) && c != '-' && c != '_' && !(9 <= c as int <= 13 || 28 <= c as int <= 32)
    ensures Slugify(a + [c] + b) == Slugify(a + b)
  {
    FoldedConcat(a + [c], b);
    FoldedConcat(a, [c]);
    FoldedConcat(a, b);
    assert Lower([c]) == [c] && [c] + "" == [c] && !IsKept(c);
    KeepOneMore(c, "");
    assert Folded([c]) == "";
    assert Folded(a) + "" == Folded(a);
  }

  ghost predicate HasAlphanumeric(s: string) {
    exists i | 0 <= i < |s| :: IsAlphanumeric(s[i])
  }

  lemma {:induction false} FoldingKeeps(s: string, inGap: bool)
    ensures HasAlphanumeric(Hyphenate(Keep(s), inGap)) <==> HasAlphanumeric(s)
    decreases |s|
  {
    if s != [] {
      var t := s[1..];
      FoldingKeeps(t, true);
      FoldingKeeps(t, false);
      assert s == [s[0]] + t;
      HasOneMore(s[0], t);
      HasOneMore(s[0], Hyphenate(Keep(t), false));
      HasOneMore('-', Hyphenate(Keep(t), true));
      FoldOneMore(s[0], t, inGap);
      assert "" + Hyphenate(Keep(t), true) == Hyphenate(Keep(t), true);
      hide Hyphenate, Keep, HasAlphanumeric;
    } else {
      FoldingKeepsSame(s, inGap);
    }
  }

  lemma FoldingKeepsSame(s: string, inGap: bool)
    requires s == []
    ensures Hyphenate(Keep(s), inGap) == s
  {
  }

  lemma FoldOneMore(c: char, t: string, inGap: bool)
    ensures Hyphenate(Keep([c] + t), inGap) ==
            if !IsKept(c) then Hyphenate(Keep(t), inGap)
            else if IsGap(c) then (if inGap then "" else ['-']) + Hyphenate(Keep(t), true)
            else [c] + Hyphenate(Keep(t), false)
  {
    KeepOneMore(c, t);
    if IsKept(c) {
      assert ([c] + Keep(t))[1..] == Keep(t);
    } else {
      assert [] + Keep(t) == Keep(t);
    }
  }

  lemma HasOneMore(c: char, t: string)
    ensures HasAlphanumeric([c] + t) <==> IsAlphanumeric(c) || HasAlphanumeric(t)
  {
    var s := [c] + t;
    assert s[0] == c;
    if i :| 0 <= i < |t| && IsAlphanumeric(t[i]) {
      assert IsAlphanumeric(s[i + 1]);
    }
  }

  lemma LowerKeepsAlphanumeric(s: string)
    ensures HasAlphanumeric(Lower(s)) <==> HasAlphanumeric(s)
  {
    if i :| 0 <= i < |s| && IsAlphanumeric(s[i]) {
      assert IsAlphanumeric(Lower(s)[i]);
    }
  }

  /** The slug is "company" for a name without letters and digits, and for a name
      that spells it; any other slug is what the name spells, cut at 80. */
  lemma DefaultSlug(name: string)
    ensures Uncut(name) == "" <==> !HasAlphanumeric(name)
    ensures Slugify(name) ==
            if !HasAlphanumeric(name) then "company"
            else if |Uncut(name)| <= 80 then Uncut(name) else Uncut(name)[..80]
    ensures Slugify(name) == "company" <==> !HasAlphanumeric(name) || Uncut(name) == "company"
  {
    var t := Hyphenate(Keep(Lower(name)), false);
    LowerKeepsAlphanumeric(name);
    FoldingKeeps(Lower(name), false);
    KeepLower(Lower(name));
    HyphenateIsSlugText(Keep(Lower(name)), false);
    TrimToNothing(t, IsHyphen);
    hide Hyphenate, Keep;
    if forall c | c in t :: IsHyphen(c) {
      assert forall i | 0 <= i < |t| :: t[i] in t;
    } else {
      var c :| c in t && !IsHyphen(c);
      var i :| 0 <= i < |t| && t[i] == c;
      assert IsSlugChar(t[i]) && IsAlphanumeric(t[i]);
    }
    if |Uncut(name)| > 80 {
      assert |Uncut(name)[..80]| == 80;
    }
  }

  // ---------- the search ----------

  /** The slugs tried in turn: the base, then base-1, base-2, ... */
  function Candidate(base: string, k: nat): string {
    if k == 0 then base else base + "-" + Decimal(k)
  }

  lemma CandidatesDiffer(base: string, j: nat, k: nat)
    requires j != k
    ensures Candidate(base, j) != Candidate(base, k)
  {
    DecimalRoundTrip(j);
    DecimalRoundTrip(k);
    assert j > 0 ==> Candidate(base, j)[|base| + 1..] == Decimal(j);
    assert k > 0 ==> Candidate(base, k)[|base| + 1..] == Decimal(k);
  }

  ghost predicate AllTaken(base: string, taken: seq<string>, n: nat) {
    forall k | 0 <= k < n :: Candidate(base, k) in taken
  }

  lemma TakenWithout(taken: seq<string>, i: nat, s: string)
    requires i < |taken| && s in taken && s != taken[i]
    ensures s in taken[..i] + taken[i + 1..]
  {
    var m :| 0 <= m < |taken| && taken[m] == s;
    var rest := taken[..i] + taken[i + 1..];
    assert if m < i then rest[m] == s else rest[m - 1] == s;
  }

  lemma {:induction false} Pigeonhole(base: string, taken: seq<string>, n: nat)
    requires AllTaken(base, taken, n)
    ensures n <= |taken|
    decreases n
  {
    if n > 0 {
      assert Candidate(base, n - 1) in taken;
      hide Candidate;
      var i :| 0 <= i < |taken| && taken[i] == Candidate(base, n - 1);
      forall k | 0 <= k < n - 1 ensures Candidate(base, k) in taken[..i] + taken[i + 1..] {
        CandidatesDiffer(base, k, n - 1);
        TakenWithout(taken, i, Candidate(base, k));
      }
      Pigeonhole(base, taken[..i] + taken[i + 1..], n - 1);
    }
  }

  /** The least free index, which exists because the candidates all differ. */
  function LeastFree(base: string, taken: seq<string>, from: nat): (k: nat)
    requires AllTaken(base, taken, from)
    ensures from <= k <= |taken|
    ensures Candidate(base, k) !in taken && AllTaken(base, taken, k)
    decreases |taken| - from
  {
    Pigeonhole(base, taken, from);
    if Candidate(base, from) !in taken then from
    else
      Pigeonhole(base, taken, from + 1);
      LeastFree(base, taken, from + 1)
  }

  function FreeSlug(base: string, taken: seq<string>): string {
    Candidate(base, LeastFree(base, taken, 0))
  }

  lemma {:induction false} LeastFreeUnique(base: string, taken: seq<string>, from: nat, k: nat)
    requires from <= k && AllTaken(base, taken, k)
    requires Candidate(base, k) !in taken
    ensures LeastFree(base, taken, from) == k
    decreases k - from
  {
    if from < k {
      LeastFreeUnique(base, taken, from + 1, k);
    }
  }

  /** The `while True` loop. It stops within one probe more than there are
      companies, on the base if that is free and on the first free base-k otherwise. */
  method FindFreeSlug(base: string, taken: seq<string>) returns (slug: string, probes: nat)
    ensures slug !in taken
    ensures probes <= |taken| + 1
    ensures probes >= 1 && slug == Candidate(base, probes - 1) && AllTaken(base, taken, probes - 1)
    ensures slug == FreeSlug(base, taken)
    ensures if base !in taken then slug == base
            else exists k: nat | k >= 1 :: slug == base + "-" + Decimal(k)
                   && forall j: nat | 1 <= j < k :: base + "-" + Decimal(j) in taken
  {
    slug := base;
    var suffix := 1;
    probes := 1;
    while slug in taken
      invariant suffix >= 1 && probes == suffix
      invariant slug == Candidate(base, suffix - 1)
      invariant AllTaken(base, taken, suffix - 1)
      decreases |taken| - suffix
    {
      Pigeonhole(base, taken, suffix);
      slug := base + "-" + Decimal(suffix);
      suffix := suffix + 1;
      probes := probes + 1;
    }
    Pigeonhole(base, taken, suffix - 1);
    LeastFreeUnique(base, taken, 0, suffix - 1);
    if base in taken {
      assert slug == base + "-" + Decimal(suffix - 1);
      forall j: nat | 1 <= j < suffix - 1 ensures base + "-" + Decimal(j) in taken {
        assert Candidate(base, j) in taken;
      }
    }
  }

  // ---------- registrations ----------

  /** What the registration form has to pass before a slug is looked for;
      `valid` stands for the checks on role, email format, passwords and tax id. */
  datatype Form = Form(companyName: string, email: string, valid: bool)

  datatype Accounts = Accounts(slugs: seq<string>, emails: seq<string>)

  function Register(a: Accounts, form: Form): Result<Accounts> {
    if !form.valid || |Strip(form.companyName)| < 2 || form.email in a.emails then Raised(422)
    else Ok(Accounts(a.slugs + [FreeSlug(Slugify(Strip(form.companyName)), a.slugs)], a.emails + [form.email]))
  }

  /** The company and user tables, as far as registration reads and writes them. */
  class Registry {
    var slugs: seq<string>
    var emails: seq<string>

    constructor ()
      ensures slugs == [] && emails == []
    {
      slugs, emails := [], [];
    }

    method RegisterSubmit(form: Form) returns (ok: bool)
      modifies this
      ensures ok <==> Register(old(Accounts(slugs, emails)), form).Ok?
      ensures ok ==> Accounts(slugs, emails) == Register(old(Accounts(slugs, emails)), form).value
      ensures !ok ==> slugs == old(slugs) && emails == old(emails)
      ensures ok <==> form.valid && |Strip(form.companyName)| >= 2 && form.email !in old(emails)
      ensures ok ==> emails == old(emails) + [form.email]
      ensures ok ==> exists k: nat | k <= |old(slugs)| ::
                && slugs == old(slugs) + [Candidate(Slugify(Strip(form.companyName)), k)]
                && Candidate(Slugify(Strip(form.companyName)), k) !in old(slugs)
                && AllTaken(Slugify(Strip(form.companyName)), old(slugs), k)
    {
      var companyName := Strip(form.companyName);
      if !form.valid || |companyName| < 2 {
        return false;
      }
      if form.email in emails {
        return false;
      }
      var slug, _ := FindFreeSlug(Slugify(companyName), slugs);
      slugs := slugs + [slug];
      emails := emails + [form.email];
      return true;
    }
  }

  function RegisterAll(forms: seq<Form>): Accounts {
    if forms == [] then Accounts([], [])
    else
      var before := RegisterAll(forms[..|forms| - 1]);
      var r := Register(before, forms[|forms| - 1]);
      if r.Ok? then r.value else before
  }

  ghost predicate PairwiseDistinct(s: seq<string>) {
    forall i, j | 0 <= i < j < |s| :: s[i] != s[j]
  }

  /** Over any sequence of registrations no two companies share a slug and no two
      users an email address, and every slug is a slug base with at most a number
      appended. */
  lemma {:induction false} SlugsStayDistinct(forms: seq<Form>)
    ensures PairwiseDistinct(RegisterAll(forms).slugs) && PairwiseDistinct(RegisterAll(forms).emails)
    ensures |RegisterAll(forms).slugs| == |RegisterAll(forms).emails|
    ensures forall s | s in RegisterAll(forms).slugs ::
              exists base: string, k: nat :: IsSlug(base) && s == Candidate(base, k)
  {
    if forms != [] {
      SlugsStayDistinct(forms[..|forms| - 1]);
      SlugifyIsSlug(Strip(forms[|forms| - 1].companyName));
    }
  }
}
