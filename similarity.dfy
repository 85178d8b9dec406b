/**
 * Bounded line-set Jaccard similarity: two texts are compared by the sets of their
 * normalised lines, unless either is too long to compare. The score is kept as the
 * exact fraction `num / den` instead of a floating-point number.
 */
module Similarity {
  import opened Strings
  import opened Seqs

  const MaxCompareChars: nat := 50000
  const MaxLines: nat := 10000

  datatype Method = SkippedLarge | JaccardLines

  /** The fraction `num / den`. */
  datatype Score = Score(num: nat, den: nat)

  /** The score 0. */
  const NoSimilarity := Score(0, 1)

  /** `{similarity, method}`; the field is named `technique` because `method` is a keyword. */
  datatype SimilarityResult = SimilarityResult(similarity: Score, technique: Method)

  /** A score of exactly one. */
  predicate IsOne(s: Score)
  {
    s.den > 0 && s.num == s.den
  }

  /** Drops one carriage return that ends a line. */
  function DropCr(line: string): (r: string)
    ensures r == line || (line == r + ['\r'])
  {
    if line != [] && line[|line| - 1] == '\r' then line[..|line| - 1] else line
  }

  /** `content.split(/\r?\n/)`: split at every line feed, and a carriage return right
      before a line feed belongs to the separator. */
  function SplitLines(content: string): (lines: seq<string>)
    ensures |lines| >= 1
  {
    var parts := Split(content, '\n');
    MapSeq(parts[..|parts| - 1], DropCr) + [parts[|parts| - 1]]
  }

  predicate NonEmpty(line: string)
  {
    line != []
  }

  /** Lower-case, split into lines, trim each, drop the empty ones, keep at most `MaxLines`. */
  function NormalizeLines(content: string): (lines: seq<string>)
    ensures |lines| <= MaxLines
  {
    var kept := Filter(MapSeq(SplitLines(ToLower(content)), Trim), NonEmpty);
    if |kept| <= MaxLines then kept else kept[..MaxLines]
  }

  function LineSet(content: string): set<string>
  {
    set line | line in NormalizeLines(content)
  }

  /** A line as normalisation leaves it: non-empty, without a line feed, no whitespace at
      either end and no upper-case letter. */
  predicate NormalLine(line: string)
  {
    line != [] && !IsWhitespace(line[0]) && !IsWhitespace(line[|line| - 1])
    && '\n' !in line && forall i | 0 <= i < |line| :: !('A' <= line[i] <= 'Z')
  }

  /** The result `boundedSimilarity` promises: zero and `skipped-large` for an oversized
      input; one for two texts without lines; otherwise |A ∩ B| / (|A| + |B| − |A ∩ B|). */
  function SimilaritySpec(a: string, b: string): (r: SimilarityResult)
  {
    if |a| > MaxCompareChars || |b| > MaxCompareChars then SimilarityResult(NoSimilarity, SkippedLarge)
    else Jaccard(LineSet(a), LineSet(b))
  }

  /** The comparison of two line sets. */
  function Jaccard(setA: set<string>, setB: set<string>): (r: SimilarityResult)
  {
    if |setA| == 0 && |setB| == 0 then SimilarityResult(Score(1, 1), JaccardLines)
    else
      IntersectionBounds(setA, setB);
      var intersection := |setA * setB|;
      var union := |setA| + |setB| - intersection;
      SimilarityResult(if union == 0 then NoSimilarity else Score(intersection, union), JaccardLines)
  }

  /** The intersection count, one element of the first set at a time. */
  method CountIntersection(setA: set<string>, setB: set<string>) returns (intersection: nat)
    ensures intersection == |setA * setB|
  {
    intersection := 0;
    var rest := setA;
    while rest != {}
      invariant rest <= setA
      invariant intersection == |(setA - rest) * setB|
      decreases |rest|
    {
      var item :| item in rest;
      var done := (setA - rest) * setB;
      if item in setB {
        assert (setA - (rest - {item})) * setB == done + {item};
        intersection := intersection + 1;
      } else {
        assert (setA - (rest - {item})) * setB == done;
      }
      rest := rest - {item};
    }
  }

  method BoundedSimilarity(a: string, b: string) returns (r: SimilarityResult)
    ensures r == SimilaritySpec(a, b)
  {
    if |a| > MaxCompareChars || |b| > MaxCompareChars {
      return SimilarityResult(NoSimilarity, SkippedLarge);
    }
    r := CompareLineSets(LineSet(a), LineSet(b));
  }

  /** The part of `boundedSimilarity` after normalisation. */
  method CompareLineSets(setA: set<string>, setB: set<string>) returns (r: SimilarityResult)
    ensures r == Jaccard(setA, setB)
  {
    if |setA| == 0 && |setB| == 0 {
      return SimilarityResult(Score(1, 1), JaccardLines);
    }
    var intersection := CountIntersection(setA, setB);
    IntersectionBounds(setA, setB);
    var union := |setA| + |setB| - intersection;
    var similarity := if union == 0 then NoSimilarity else Score(intersection, union);
    r := SimilarityResult(similarity, JaccardLines);
  }

  lemma {:induction false} SubsetCardinality<T>(a: set<T>, b: set<T>)
    requires a <= b
    ensures |a| <= |b|
  {
    if a != {} {
      var x :| x in a;
      SubsetCardinality(a - {x}, b - {x});
    }
  }

  lemma IntersectionBounds<T>(a: set<T>, b: set<T>)
    ensures |a * b| <= |a| && |a * b| <= |b|
  {
    SubsetCardinality(a * b, a);
    SubsetCardinality(a * b, b);
  }

  /** The score is a fraction between zero and one, and only an oversized input skips. */
  lemma ScoreInUnitInterval(a: string, b: string)
    ensures var r := SimilaritySpec(a, b);
      0 < r.similarity.den && r.similarity.num <= r.similarity.den
    ensures SimilaritySpec(a, b).technique == SkippedLarge <==> |a| > MaxCompareChars || |b| > MaxCompareChars
  {
    if |a| <= MaxCompareChars && |b| <= MaxCompareChars {
      JaccardBounds(LineSet(a), LineSet(b));
    }
  }

  lemma JaccardBounds(setA: set<string>, setB: set<string>)
    ensures var r := Jaccard(setA, setB);
      r.technique == JaccardLines && 0 < r.similarity.den && r.similarity.num <= r.similarity.den
  {
    IntersectionBounds(setA, setB);
  }

  /** An oversized input gives zero with `skipped-large`, whatever the other input. */
  lemma SkippedWhenLarge(a: string, b: string)
    requires |a| > MaxCompareChars || |b| > MaxCompareChars
    ensures SimilaritySpec(a, b) == SimilarityResult(NoSimilarity, SkippedLarge)
  {
  }

  /** The score does not depend on which text comes first. */
  lemma Symmetric(a: string, b: string)
    ensures SimilaritySpec(a, b) == SimilaritySpec(b, a)
  {
    JaccardSymmetric(LineSet(a), LineSet(b));
  }

  lemma JaccardSymmetric(setA: set<string>, setB: set<string>)
    ensures Jaccard(setA, setB) == Jaccard(setB, setA)
  {
    assert setA * setB == setB * setA;
  }

  /** Any text that is not oversized is fully similar to itself. */
  lemma Identical(a: string)
    requires |a| <= MaxCompareChars
    ensures SimilaritySpec(a, a).technique == JaccardLines && IsOne(SimilaritySpec(a, a).similarity)
  {
    JaccardSame(LineSet(a), LineSet(a));
  }

  /** Equal line sets score one; disjoint line sets, not both empty, score zero. */
  lemma JaccardSame(setA: set<string>, setB: set<string>)
    ensures Jaccard(setA, setB).technique == JaccardLines
    ensures setA == setB ==> IsOne(Jaccard(setA, setB).similarity)
    ensures setA * setB == {} && setA != {} ==> Jaccard(setA, setB).similarity.num == 0
  {
    if setA == setB {
      assert setA * setB == setA;
    }
  }

  /** Two texts with the same line sets score one; two with disjoint non-empty line sets
      score zero. */
  lemma SameOrDisjointLines(a: string, b: string)
    requires |a| <= MaxCompareChars && |b| <= MaxCompareChars
    ensures LineSet(a) == LineSet(b) ==> IsOne(SimilaritySpec(a, b).similarity)
    ensures LineSet(a) * LineSet(b) == {} && LineSet(a) != {} ==> SimilaritySpec(a, b).similarity.num == 0
  {
    JaccardSame(LineSet(a), LineSet(b));
  }

  /** A full score means the two line sets are equal. */
  lemma OneMeansSameLines(a: string, b: string)
    requires |a| <= MaxCompareChars && |b| <= MaxCompareChars
    requires IsOne(SimilaritySpec(a, b).similarity)
    ensures LineSet(a) == LineSet(b)
  {
    JaccardOne(LineSet(a), LineSet(b));
  }

  lemma JaccardOne(setA: set<string>, setB: set<string>)
    requires IsOne(Jaccard(setA, setB).similarity)
    ensures setA == setB
  {
    if |setA| != 0 || |setB| != 0 {
      IntersectionBounds(setA, setB);
      var i := setA * setB;
      assert |i| == |setA| == |setB|;
      SameSize(i, setA);
      SameSize(i, setB);
    }
  }

  lemma {:induction false} SameSize<T>(a: set<T>, b: set<T>)
    requires a <= b && |a| == |b|
    ensures a == b
  {
    if a != {} {
      var x :| x in a;
      SameSize(a - {x}, b - {x});
    } else {
      assert |b| == 0;
    }
  }

  lemma TrimNormal(line: string)
    requires line != [] && !IsWhitespace(line[0]) && !IsWhitespace(line[|line| - 1])
    ensures Trim(line) == line
  {
  }

  lemma {:induction false} ToLowerJoin(lines: seq<string>)
    requires forall i | 0 <= i < |lines| :: NormalLine(lines[i])
    ensures ToLower(Join(lines, "\n")) == Join(lines, "\n")
  {
    if |lines| > 1 {
      ToLowerJoin(lines[1..]);
      ToLowerAppend(lines[0] + "\n", Join(lines[1..], "\n"));
      ToLowerAppend(lines[0], "\n");
    }
    if lines != [] {
      assert ToLower(lines[0]) == lines[0];
    }
  }

  /** Normalisation is the inverse of joining normal lines with line feeds: such a text
      normalises back to exactly its lines. */
  lemma {:induction false} NormalizeJoin(lines: seq<string>)
    requires |lines| <= MaxLines
    requires forall i | 0 <= i < |lines| :: NormalLine(lines[i])
    ensures NormalizeLines(Join(lines, "\n")) == lines
  {
    if lines == [] {
      NormalizeEmpty();
    } else {
      ToLowerJoin(lines);
      SplitLinesJoin(lines);
      TrimAll(lines);
      FilterAll(lines, NonEmpty);
      NormalizeLinesOf(Join(lines, "\n"), lines);
    }
  }

  /** The empty text has no lines. */
  lemma NormalizeEmpty()
    ensures NormalizeLines("") == []
  {
    assert Split("", '\n') == [""];
    assert SplitLines("") == [""];
    assert MapSeq([""], Trim) == [""];
    assert Filter([""], NonEmpty) == [];
  }

  lemma {:induction false} TrimAll(lines: seq<string>)
    requires forall i | 0 <= i < |lines| :: NormalLine(lines[i])
    ensures MapSeq(lines, Trim) == lines
  {
    forall i | 0 <= i < |lines| ensures Trim(lines[i]) == lines[i] {
      TrimNormal(lines[i]);
    }
  }

  lemma {:induction false} NormalizeLinesOf(content: string, kept: seq<string>)
    requires ToLower(content) == content && |kept| <= MaxLines
    requires Filter(MapSeq(SplitLines(content), Trim), NonEmpty) == kept
    ensures NormalizeLines(content) == kept
  {
  }

  lemma {:induction false} SplitLinesJoin(lines: seq<string>)
    requires lines != []
    requires forall i | 0 <= i < |lines| :: NormalLine(lines[i])
    ensures SplitLines(Join(lines, "\n")) == lines
  {
    SplitJoin(lines, '\n');
    NoCrUnchanged(lines[..|lines| - 1]);
    SplitLinesOf(Join(lines, "\n"), lines);
  }

  /** Lines that do not end in a carriage return come out of the split as they are. */
  lemma {:induction false} SplitLinesOf(content: string, lines: seq<string>)
    requires Split(content, '\n') == lines
    requires MapSeq(lines[..|lines| - 1], DropCr) == lines[..|lines| - 1]
    ensures SplitLines(content) == lines
  {
    assert lines == lines[..|lines| - 1] + [lines[|lines| - 1]];
  }

  lemma {:induction false} NoCrUnchanged(lines: seq<string>)
    requires forall i | 0 <= i < |lines| :: lines[i] == [] || lines[i][|lines[i]| - 1] != '\r'
    ensures MapSeq(lines, DropCr) == lines
  {
  }

  /** Two texts of two lines that share one line: a third of the union. */
  lemma SmallEditExample()
    ensures SimilaritySpec("hello\nworld", "hello\nplanet") == SimilarityResult(Score(1, 3), JaccardLines)
  {
    SmallEditLines();
    JaccardOneShared("hello", "world", "planet");
  }

  lemma SmallEditLines()
    ensures LineSet("hello\nworld") == {"hello", "world"}
    ensures LineSet("hello\nplanet") == {"hello", "planet"}
  {
    ExampleTexts();
    ExampleLines("hello", "world");
    ExampleLines("hello", "planet");
  }

  lemma ExampleLines(l1: string, l2: string)
    requires (l1, l2) in {("hello", "world"), ("hello", "planet")}
    ensures LineSet(l1 + "\n" + l2) == {l1, l2}
  {
    TwoLineSet(l1, l2);
  }

  lemma JaccardOneShared(x: string, y: string, z: string)
    requires x != y && y != z && x != z
    ensures Jaccard({x, y}, {x, z}) == SimilarityResult(Score(1, 3), JaccardLines)
  {
    assert {x, y} * {x, z} == {x};
  }

  /** Texts with no line in common score zero. */
  lemma DisjointExample()
    ensures SimilaritySpec("a\nb\nc", "x\ny\nz") == SimilarityResult(Score(0, 6), JaccardLines)
  {
    DisjointLines();
    JaccardDisjointExample();
  }

  lemma DisjointLines()
    ensures LineSet("a\nb\nc") == {"a", "b", "c"}
    ensures LineSet("x\ny\nz") == {"x", "y", "z"}
  {
    ExampleTexts();
    ExampleLinesThree("a", "b", "c");
    ExampleLinesThree("x", "y", "z");
  }

  lemma ExampleLinesThree(l1: string, l2: string, l3: string)
    requires (l1, l2, l3) in {("a", "b", "c"), ("x", "y", "z")}
    ensures LineSet(l1 + "\n" + l2 + "\n" + l3) == {l1, l2, l3}
  {
    ThreeLineSet(l1, l2, l3);
  }

  lemma ExampleTexts()
    ensures "hello" + "\n" + "world" == "hello\nworld" && "hello" + "\n" + "planet" == "hello\nplanet"
    ensures "a" + "\n" + "b" + "\n" + "c" == "a\nb\nc" && "x" + "\n" + "y" + "\n" + "z" == "x\ny\nz"
  {
  }

  lemma JaccardDisjointExample()
    ensures Jaccard({"a", "b", "c"}, {"x", "y", "z"}) == SimilarityResult(Score(0, 6), JaccardLines)
  {
    SetOfThree("a", "b", "c");
    SetOfThree("x", "y", "z");
    assert {"a", "b", "c"} * {"x", "y", "z"} == {};
  }

  lemma {:induction false} TwoLineSet(l1: string, l2: string)
    requires NormalLine(l1) && NormalLine(l2) && l1 != l2
    ensures LineSet(l1 + "\n" + l2) == {l1, l2}
  {
    var lines := [l1, l2];
    assert Join(lines, "\n") == l1 + "\n" + l2;
    NormalizeJoin(lines);
    LineSetOf(l1 + "\n" + l2, lines);
    SetOfTwo(l1, l2);
  }

  lemma {:induction false} ThreeLineSet(l1: string, l2: string, l3: string)
    requires NormalLine(l1) && NormalLine(l2) && NormalLine(l3) && l1 != l2 && l2 != l3 && l1 != l3
    ensures LineSet(l1 + "\n" + l2 + "\n" + l3) == {l1, l2, l3}
  {
    var lines := [l1, l2, l3];
    assert Join(lines[2..], "\n") == l3;
    assert Join(lines, "\n") == l1 + "\n" + l2 + "\n" + l3;
    NormalizeJoin(lines);
    LineSetOf(l1 + "\n" + l2 + "\n" + l3, lines);
    SetOfThree(l1, l2, l3);
  }

  lemma LineSetOf(content: string, lines: seq<string>)
    requires NormalizeLines(content) == lines
    ensures LineSet(content) == set l | l in lines
  {
  }

  lemma SetOfTwo<T>(a: T, b: T)
    requires a != b
    ensures (set x | x in [a, b]) == {a, b} && |{a, b}| == 2
  {
  }

  lemma SetOfThree<T>(a: T, b: T, c: T)
    requires a != b && b != c && a != c
    ensures (set x | x in [a, b, c]) == {a, b, c} && |{a, b, c}| == 3
  {
  }
}
