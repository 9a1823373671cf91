/** Heuristic suggestion of which columns hold the title, the abstract and
    their translations: case-insensitive substring matching of each column
    name against three fixed keyword lists. */
module ColumnDetection {

  import opened Records

  /** The four suggestion lists a column can land in. */
  datatype Bucket = Title | TitleTranslation | Abstract | AbstractTranslation

  datatype Candidates = Candidates(titles: seq<string>, titleTranslations: seq<string>,
                                   abstracts: seq<string>, abstractTranslations: seq<string>)
  {
    function Get(b: Bucket): seq<string> {
      match b
      case Title => titles
      case TitleTranslation => titleTranslations
      case Abstract => abstracts
      case AbstractTranslation => abstractTranslations
    }
  }

  const TitleKeywords: seq<string> := ["标题", "title", "题名", "篇名", "文章标题", "题目", "ti"]
  const TranslationKeywords: seq<string> := ["翻译", "translation", "英文", "english", "en"]
  const AbstractKeywords: seq<string> := ["摘要", "abstract", "概要", "内容简介", "文章摘要", "ab"]

  function LowerChar(c: char): (d: char)
    ensures 'A' <= c <= 'Z' ==> d as int == c as int + 32
    ensures !('A' <= c <= 'Z') ==> d == c
  {
    if 'A' <= c <= 'Z' then (c as int + 32) as char else c
  }

  /** Lower-casing of a column name, letter by letter. */
  function Lower(s: string): (r: string)
    ensures |r| == |s|
    ensures forall i :: 0 <= i < |s| ==> r[i] == LowerChar(s[i])
  {
    seq(|s|, i requires 0 <= i < |s| => LowerChar(s[i]))
  }

  /** Python's `k in s` for strings, by scanning the start positions. */
  function Contains(s: string, k: string): bool
    decreases |s|
  {
    |k| <= |s| && (s[..|k|] == k || Contains(s[1..], k))
  }

  /** `k` occurs in `s` starting at position `i`. */
  predicate OccursAt(s: string, k: string, i: int) {
    0 <= i && i + |k| <= |s| && s[i..i + |k|] == k
  }

  /** The scan agrees with the definition of a substring: some window of `s`
      equals `k`. */
  lemma {:induction false} ContainsIff(s: string, k: string)
    ensures Contains(s, k) <==> exists i :: OccursAt(s, k, i)
    decreases |s|
  {
    if |k| <= |s| {
      if s[..|k|] == k {
        assert OccursAt(s, k, 0);
      } else {
        ContainsIff(s[1..], k);
        if Contains(s[1..], k) {
          var i :| OccursAt(s[1..], k, i);
          assert s[i + 1..i + 1 + |k|] == s[1..][i..i + |k|];
          assert OccursAt(s, k, i + 1);
        } else {
          forall i | OccursAt(s, k, i) ensures false {
            if i > 0 {
              var t := s[1..];
              forall j | 0 <= j < |k| ensures t[i - 1..i - 1 + |k|][j] == k[j] {
                assert t[i - 1 + j] == s[i + j];
                assert s[i..i + |k|][j] == k[j];
              }
              assert t[i - 1..i - 1 + |k|] == k;
              assert OccursAt(t, k, i - 1);
            }
          }
        }
      }
    }
  }

  /** `any(keyword in name for keyword in keywords)`. */
  predicate MatchesAny(name: string, keywords: seq<string>) {
    exists i :: 0 <= i < |keywords| && Contains(name, keywords[i])
  }

  /** Where one column lands: the title test is tried before the abstract test,
      and a translation keyword turns either into its translation variant. */
  function Classify(col: string): (b: Option<Bucket>)
  {
    var l := Lower(col);
    if MatchesAny(l, TitleKeywords) then
      if MatchesAny(l, TranslationKeywords) then Some(TitleTranslation) else Some(Title)
    else if MatchesAny(l, AbstractKeywords) then
      if MatchesAny(l, TranslationKeywords) then Some(AbstractTranslation) else Some(Abstract)
    else None
  }

  function Empty(): Candidates { Candidates([], [], [], []) }

  /** Appends `col` to the list it belongs to, if any. */
  function Add(c: Candidates, col: string): Candidates {
    match Classify(col)
    case None => c
    case Some(Title) => c.(titles := c.titles + [col])
    case Some(TitleTranslation) => c.(titleTranslations := c.titleTranslations + [col])
    case Some(Abstract) => c.(abstracts := c.abstracts + [col])
    case Some(AbstractTranslation) => c.(abstractTranslations := c.abstractTranslations + [col])
  }

  /** The candidate lists, built by visiting the columns in order and
      appending each to its list. */
  function Detect(cols: seq<string>): Candidates
  {
    if cols == [] then Empty() else Add(Detect(cols[..|cols| - 1]), cols[|cols| - 1])
  }

  /** Reference definition: the columns, in their order, whose class is `b`. */
  function Select(cols: seq<string>, b: Bucket): seq<string>
  {
    if cols == [] then []
    else (if Classify(cols[0]) == Some(b) then [cols[0]] else []) + Select(cols[1..], b)
  }

  lemma {:induction false} SelectAppend(cols: seq<string>, x: string, b: Bucket)
    ensures Select(cols + [x], b) == Select(cols, b) + (if Classify(x) == Some(b) then [x] else [])
  {
    if cols != [] {
      assert (cols + [x])[1..] == cols[1..] + [x];
      SelectAppend(cols[1..], x, b);
    }
  }

  lemma {:induction false} SelectMembers(cols: seq<string>, b: Bucket, x: string)
    ensures x in Select(cols, b) <==> x in cols && Classify(x) == Some(b)
  {
    if cols != [] {
      SelectMembers(cols[1..], b, x);
      assert cols == [cols[0]] + cols[1..];
    }
  }

  /** Each detected list is exactly the order-preserving selection of the
      columns of that class. */
  lemma {:induction false} DetectIsSelect(cols: seq<string>, b: Bucket)
    ensures Detect(cols).Get(b) == Select(cols, b)
  {
    if cols != [] {
      var init, x := cols[..|cols| - 1], cols[|cols| - 1];
      assert cols == init + [x];
      DetectIsSelect(init, b);
      SelectAppend(init, x, b);
    }
  }

  /** A column is in a list iff it is a column whose class is that list, so
      no name is put in two lists and unmatched names are in none. */
  lemma DetectMembers(cols: seq<string>, b: Bucket, x: string)
    ensures x in Detect(cols).Get(b) <==> x in cols && Classify(x) == Some(b)
  {
    DetectIsSelect(cols, b);
    SelectMembers(cols, b, x);
  }

  lemma DetectAtMostOneList(cols: seq<string>, x: string, b1: Bucket, b2: Bucket)
    requires x in Detect(cols).Get(b1) && x in Detect(cols).Get(b2)
    ensures b1 == b2
  {
    DetectMembers(cols, b1, x);
    DetectMembers(cols, b2, x);
  }

  /** The four lists together never hold more names than there are columns. */
  lemma {:induction false} DetectSize(cols: seq<string>)
    ensures |Detect(cols).titles| + |Detect(cols).titleTranslations| +
            |Detect(cols).abstracts| + |Detect(cols).abstractTranslations| <= |cols|
  {
    if cols != [] {
      DetectSize(cols[..|cols| - 1]);
    }
  }

  /** A column whose lower-cased name holds a translation keyword and a title
      or abstract keyword is offered only as a translation column; one with a
      title keyword is never offered as an abstract column. */
  lemma TranslationWins(cols: seq<string>, x: string)
    requires x in cols
    ensures MatchesAny(Lower(x), TranslationKeywords) &&
            (MatchesAny(Lower(x), TitleKeywords) || MatchesAny(Lower(x), AbstractKeywords)) ==>
      (x in Detect(cols).titleTranslations || x in Detect(cols).abstractTranslations) &&
      x !in Detect(cols).titles && x !in Detect(cols).abstracts
    ensures MatchesAny(Lower(x), TitleKeywords) ==>
      x !in Detect(cols).abstracts && x !in Detect(cols).abstractTranslations
  {
    DetectMembers(cols, Title, x);
    DetectMembers(cols, TitleTranslation, x);
    DetectMembers(cols, Abstract, x);
    DetectMembers(cols, AbstractTranslation, x);
  }

  const AbstractTranslationName: string := "Abstract Translation"

  lemma AbstractTranslationWindows()
    ensures OccursAt(Lower(AbstractTranslationName), "ti", 16)
    ensures OccursAt(Lower(AbstractTranslationName), "translation", 9)
  {
    var l := Lower(AbstractTranslationName);
    assert l[9..20] == "translation" by {
      forall i | 9 <= i < 20 ensures l[i] == "translation"[i - 9] {
        assert AbstractTranslationName[i] == " Translation"[i - 8];
      }
    }
    assert l[16..18] == l[9..20][7..9];
  }

  /** A column named "Abstract Translation" lands in the title-translation
      list: the title keyword "ti" occurs inside "translation", and the
      title test runs first. */
  lemma AbstractTranslationIsTitleTranslation()
    ensures Classify(AbstractTranslationName) == Some(TitleTranslation)
    ensures Detect([AbstractTranslationName]) == Candidates([], [AbstractTranslationName], [], [])
  {
    var l := Lower(AbstractTranslationName);
    AbstractTranslationWindows();
    ContainsIff(l, TitleKeywords[6]);
    ContainsIff(l, TranslationKeywords[1]);
    assert MatchesAny(l, TitleKeywords);
    assert MatchesAny(l, TranslationKeywords);
    assert Detect([AbstractTranslationName]) == Add(Empty(), AbstractTranslationName);
  }

  /** The first column of class `b` is the head of its selection: no earlier
      column has that class. */
  lemma {:induction false} SelectHead(cols: seq<string>, b: Bucket)
    requires Select(cols, b) != []
    ensures forall j :: 0 <= j < IndexOf(cols, Select(cols, b)[0]) ==> Classify(cols[j]) != Some(b)
  {
    var x := Select(cols, b)[0];
    if Classify(cols[0]) != Some(b) {
      assert Select(cols, b) == Select(cols[1..], b);
      SelectMembers(cols[1..], b, x);
      SelectHead(cols[1..], b);
      assert cols[0] != x;
      forall j | 1 <= j < IndexOf(cols, x) ensures Classify(cols[j]) != Some(b) {
        assert cols[j] == cols[1..][j - 1];
      }
    }
  }

  /** The default a mapping selector starts from: the first candidate of its
      list, that is the first column of that class in table order, or the
      empty choice. */
  function Suggestion(cols: seq<string>, b: Bucket): (s: string)
    ensures Detect(cols).Get(b) == [] ==> s == ""
    ensures Detect(cols).Get(b) != [] ==> s in cols && Classify(s) == Some(b)
    ensures Detect(cols).Get(b) != [] ==>
      forall j :: 0 <= j < IndexOf(cols, s) ==> Classify(cols[j]) != Some(b)
  {
    var c := Detect(cols).Get(b);
    if c == [] then ""
    else
      DetectMembers(cols, b, c[0]);
      DetectIsSelect(cols, b);
      SelectHead(cols, b);
      c[0]
  }
}
