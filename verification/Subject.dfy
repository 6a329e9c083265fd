/**
 The subject line of a posted part, `<release> [i/F] - "<name>" yEnc (n/P)`: how titles and names
 are made safe for it, and why whoever reads the line finds the same release, file and part.
 */
module Subject {
  import opened Text
  import opened Wrappers

  // ------------------------------------------------------------- safe text

  /** Characters that could be taken for a counter, a quoted name or a line end. */
  predicate IsMarker(c: char) {
    c == '[' || c == ']' || c == '(' || c == ')' || c == '"' || c == '\r' || c == '\n' || c == '\t'
  }

  function Blanked(s: string): (r: string)
    ensures |r| == |s|
    ensures forall i :: 0 <= i < |r| ==> !IsMarker(r[i])
  {
    seq(|s|, i requires 0 <= i < |s| => if IsMarker(s[i]) then ' ' else s[i])
  }

  /** The length of the word s starts with. */
  function WordLength(s: string): (k: nat)
    ensures k <= |s|
    ensures forall i :: 0 <= i < k ==> !IsSpace(s[i])
    ensures k < |s| ==> IsSpace(s[k])
  {
    if s == "" || IsSpace(s[0]) then 0 else 1 + WordLength(s[1..])
  }

  /** strings.Fields: the words between runs of white space. */
  function Fields(s: string): seq<string>
    decreases |s|
  {
    if s == "" then []
    else if IsSpace(s[0]) then Fields(s[1..])
    else [s[..WordLength(s)]] + Fields(s[WordLength(s)..])
  }

  function Join(words: seq<string>): string {
    if words == [] then ""
    else if |words| == 1 then words[0]
    else words[0] + " " + Join(words[1..])
  }

  function SubjectSafe(s: string): string {
    var t := Join(Fields(Blanked(s)));
    if t == "" then "release" else t
  }

  predicate IsWord(w: string) {
    w != "" && forall i :: 0 <= i < |w| ==> !IsSpace(w[i]) && !IsMarker(w[i])
  }

  /** No marker, and no white space but single blanks between words. */
  predicate Canonical(s: string) {
    && s != "" && !IsSpace(s[0]) && !IsSpace(s[|s| - 1])
    && (forall i :: 0 <= i < |s| ==> s[i] !in "[]()\"\r\n\t")
    && (forall i :: 0 <= i < |s| - 1 && IsSpace(s[i]) ==> s[i] == ' ' && !IsSpace(s[i + 1]))
  }

  lemma MarkersAre(c: char)
    ensures IsMarker(c) <==> c in "[]()\"\r\n\t"
  {
    var text := "[]()\"\r\n\t";
    assert text[0] == '[' && text[1] == ']' && text[2] == '(' && text[3] == ')';
    assert text[4] == '"' && text[5] == '\r' && text[6] == '\n' && text[7] == '\t';
  }

  lemma CanonicalHasNoMarkers(s: string)
    ensures (forall i :: 0 <= i < |s| ==> s[i] !in "[]()\"\r\n\t") <==> forall i :: 0 <= i < |s| ==> !IsMarker(s[i])
  {
    forall i | 0 <= i < |s| ensures IsMarker(s[i]) <==> s[i] in "[]()\"\r\n\t" {
      MarkersAre(s[i]);
    }
  }

  lemma {:induction false} FieldsAreWords(s: string)
    requires forall i :: 0 <= i < |s| ==> !IsMarker(s[i])
    ensures forall k :: 0 <= k < |Fields(s)| ==> IsWord(Fields(s)[k])
    decreases |s|
  {
    hide IsSpace, IsMarker;
    if s != "" {
      if IsSpace(s[0]) {
        FieldsAreWords(s[1..]);
      } else {
        FieldsAreWords(s[WordLength(s)..]);
      }
    }
  }

  lemma {:induction false} JoinIsCanonical(words: seq<string>)
    requires words != [] && forall k :: 0 <= k < |words| ==> IsWord(words[k])
    ensures Canonical(Join(words))
    decreases |words|
  {
    hide IsMarker;
    CanonicalHasNoMarkers(words[0]);
    if |words| > 1 {
      JoinIsCanonical(words[1..]);
      BlankBetween(words[0], Join(words[1..]));
    }
  }

  lemma BlankBetween(w: string, rest: string)
    requires IsWord(w) && Canonical(rest)
    ensures Canonical(w + " " + rest)
  {
    var s := w + " " + rest;
    CanonicalHasNoMarkers(rest);
    CanonicalHasNoMarkers(s);
    assert !IsMarker(' ');
    forall i | 0 <= i < |s| - 1 && IsSpace(s[i]) ensures s[i] == ' ' && !IsSpace(s[i + 1]) {
      assert i >= |w|;
      if i > |w| {
        assert s[i] == rest[i - |w| - 1] && s[i + 1] == rest[i - |w|];
      }
    }
    forall i | 0 <= i < |s| ensures !IsMarker(s[i]) {
      if i > |w| {
        assert s[i] == rest[i - |w| - 1];
      }
    }
  }

  /** After the first word of a canonical text comes one blank and then a canonical text. */
  lemma CanonicalTail(s: string, k: nat)
    requires Canonical(s) && k < |s| && IsSpace(s[k])
    ensures s[k] == ' ' && k + 1 < |s| && Canonical(s[k + 1..])
  {
    hide IsSpace, IsMarker;
    assert k < |s| - 1;
    var tail := s[k + 1..];
    assert forall i :: 0 <= i < |tail| ==> tail[i] == s[k + 1 + i];
    forall i | 0 <= i < |tail| - 1 && IsSpace(tail[i]) ensures tail[i] == ' ' && !IsSpace(tail[i + 1]) {
      assert tail[i + 1] == s[k + 1 + i + 1];
    }
  }

  lemma FieldsOfWord(s: string)
    requires s != "" && WordLength(s) == |s|
    ensures Fields(s) == [s]
  {
    assert s[..|s|] == s && s[|s|..] == "";
  }

  lemma FieldsOfWordAndBlank(s: string, k: nat)
    requires k == WordLength(s) && 0 < k < |s|
    ensures Fields(s) == [s[..k]] + Fields(s[k + 1..])
  {
    hide IsSpace;
    assert s[k..][0] == s[k] && s[k..][1..] == s[k + 1..];
    assert Fields(s[k..]) == Fields(s[k..][1..]);
  }

  lemma {:induction false} WordsOfCanonical(s: string)
    requires Canonical(s)
    ensures Fields(s) != [] && Join(Fields(s)) == s
    decreases |s|
  {
    hide IsSpace, IsMarker, Fields;
    var k := WordLength(s);
    if k < |s| {
      var tail := s[k + 1..];
      CanonicalTail(s, k);
      WordsOfCanonical(tail);
      FieldsOfWordAndBlank(s, k);
      assert ([s[..k]] + Fields(tail))[1..] == Fields(tail);
      assert s == s[..k] + " " + tail;
    } else {
      FieldsOfWord(s);
    }
  }

  /** Whatever the title, the safe form is canonical; and it is the title itself exactly if that already is. */
  lemma SafeIsCanonical(s: string)
    ensures Canonical(SubjectSafe(s))
    ensures SubjectSafe(s) == s <==> Canonical(s)
  {
    hide IsMarker, Fields, Join, Canonical;
    var words := Fields(Blanked(s));
    FieldsAreWords(Blanked(s));
    if words != [] {
      JoinIsCanonical(words);
    }
    Fallback();
    if Canonical(s) {
      CanonicalUnblanked(s);
      WordsOfCanonical(s);
    }
  }

  lemma Fallback()
    ensures Canonical("release") && !Canonical("") && Join([]) == ""
  {
    hide Canonical;
    assert IsWord("release");
    JoinIsCanonical(["release"]);
    NothingIsNotCanonical();
  }

  lemma NothingIsNotCanonical()
    ensures !Canonical("")
  {
  }

  // ------------------------------------------------------------- the words survive

  /** A character of a word of the title: no white space, no bracket, parenthesis or double quote. */
  predicate InWord(c: char) {
    !IsSpace(c) && c != '[' && c != ']' && c != '(' && c != ')' && c != '"'
  }

  function RunLength(s: string): (k: nat)
    ensures k <= |s|
    ensures forall i :: 0 <= i < k ==> InWord(s[i])
    ensures k < |s| ==> !InWord(s[k])
  {
    if s == "" || !InWord(s[0]) then 0 else 1 + RunLength(s[1..])
  }

  /** The words of a title, in order. */
  function Runs(s: string): seq<string>
    decreases |s|
  {
    if s == "" then []
    else if !InWord(s[0]) then Runs(s[1..])
    else [s[..RunLength(s)]] + Runs(s[RunLength(s)..])
  }

  lemma BlankedAt(s: string)
    ensures forall i :: 0 <= i < |s| ==> (IsSpace(Blanked(s)[i]) <==> !InWord(s[i]))
    ensures forall i :: 0 <= i < |s| && InWord(s[i]) ==> Blanked(s)[i] == s[i]
  {
  }

  lemma BlankedRest(s: string, k: nat)
    requires k <= |s|
    ensures Blanked(s)[k..] == Blanked(s[k..])
  {
  }

  lemma WordLengthUnique(s: string, k: nat)
    requires k <= |s| && (forall i :: 0 <= i < k ==> !IsSpace(s[i])) && (k < |s| ==> IsSpace(s[k]))
    ensures WordLength(s) == k
  {
    hide IsSpace;
  }

  lemma {:induction false} FieldsOfBlanked(s: string)
    ensures Fields(Blanked(s)) == Runs(s)
    decreases |s|
  {
    hide IsSpace, InWord, Blanked;
    BlankedAt(s);
    if s != "" {
      if !InWord(s[0]) {
        BlankedRest(s, 1);
        FieldsOfBlanked(s[1..]);
      } else {
        var k := RunLength(s);
        WordLengthUnique(Blanked(s), k);
        assert Blanked(s)[..k] == s[..k];
        BlankedRest(s, k);
        FieldsOfBlanked(s[k..]);
      }
    }
  }

  lemma {:induction false} FieldsOfJoin(words: seq<string>)
    requires forall k :: 0 <= k < |words| ==> IsWord(words[k])
    ensures Fields(Join(words)) == words
    decreases |words|
  {
    hide IsSpace, IsMarker, Fields;
    if |words| == 1 {
      WordLengthUnique(words[0], |words[0]|);
      FieldsOfWord(words[0]);
    } else if |words| > 1 {
      var s, k := Join(words), |words[0]|;
      BlankIsSpace();
      WordLengthUnique(s, k);
      FieldsOfWordAndBlank(s, k);
      assert s[..k] == words[0] && s[k + 1..] == Join(words[1..]);
      FieldsOfJoin(words[1..]);
    } else {
      NoFields();
    }
  }

  lemma NoFields()
    ensures Fields("") == []
  {
  }

  lemma BlankIsSpace()
    ensures IsSpace(' ')
  {
  }

  /** The words of the title are all there, in order, and nothing else; a title without words gets a name. */
  lemma WordsSurvive(s: string)
    ensures Fields(SubjectSafe(s)) == if Runs(s) == [] then ["release"] else Runs(s)
  {
    hide IsMarker, Fields, Join, Canonical, Runs, Blanked, IsSpace;
    FieldsOfBlanked(s);
    FieldsAreWords(Blanked(s));
    FieldsOfJoin(Runs(s));
    NoFields();
    if Runs(s) == [] {
      ReleaseIsWord();
      FieldsOfJoin(["release"]);
    }
  }

  lemma ReleaseIsWord()
    ensures IsWord("release") && Join(["release"]) == "release" && Join([]) == ""
  {
  }

  lemma CanonicalUnblanked(s: string)
    requires Canonical(s)
    ensures Blanked(s) == s
  {
    CanonicalHasNoMarkers(s);
  }

  lemma CanonicalHasNoMarker(s: string)
    requires Canonical(s)
    ensures '[' !in s && '"' !in s
  {
    CanonicalHasNoMarkers(s);
    assert IsMarker('[') && IsMarker('"');
  }

  // ------------------------------------------------------------- the line

  datatype Subject = Subject(base: string, file: nat, files: nat, name: string, part: nat, parts: nat)

  const OPEN := " ["
  const MIDDLE := "] - \""
  const CLOSE := "\" yEnc ("

  function Counter(a: nat, b: nat, rest: string): string {
    Number(a) + ("/" + (Number(b) + rest))
  }

  function Printed(x: Subject): string {
    x.base + (OPEN + Counter(x.file, x.files, MIDDLE + (x.name + (CLOSE + Counter(x.part, x.parts, ")")))))
  }

  /** What comes before the first c, and what comes after it. */
  function CutAt(s: string, c: char): Option<(string, string)>
    decreases |s|
  {
    if s == "" then None
    else if s[0] == c then Some(("", s[1..]))
    else
      match CutAt(s[1..], c)
      case None => None
      case Some(cut) => Some(([s[0]] + cut.0, cut.1))
  }

  function ReadCounter(s: string): Option<(nat, nat, string)> {
    var a :- ReadNumber(s);
    var rest :- Strip("/", a.1);
    var b :- ReadNumber(rest);
    Some((a.0, b.0, b.1))
  }

  /** A reader of such lines: the first bracket starts the file counter, the first quote after it the name. */
  function ReadSubject(s: string): Option<Subject> {
    var head :- CutAt(s, '[');
    var file :- ReadCounter(head.1);
    var quoted :- Strip("] - \"", file.2);
    var name :- CutAt(quoted, '"');
    var marker :- Strip(" yEnc (", name.1);
    var part :- ReadCounter(marker);
    if part.2 == ")" && head.0 != "" && head.0[|head.0| - 1] == ' ' then
      Some(Subject(head.0[..|head.0| - 1], file.0, file.1, name.0, part.0, part.1))
    else None
  }

  lemma {:induction false} CutAtFirst(before: string, c: char, after: string)
    requires c !in before
    ensures CutAt(before + ([c] + after), c) == Some((before, after))
    decreases |before|
  {
    var s := before + ([c] + after);
    if before == "" {
      assert s[0] == c && s[1..] == after;
    } else {
      assert s[0] == before[0] && s[1..] == before[1..] + ([c] + after);
      CutAtFirst(before[1..], c, after);
      assert [before[0]] + before[1..] == before;
    }
  }

  lemma CounterInverts(a: nat, b: nat, rest: string)
    requires rest != "" ==> !IsDigitChar(rest[0])
    ensures ReadCounter(Counter(a, b, rest)) == Some((a, b, rest))
  {
    hide ReadNumber, Number;
    ReadNumberInverts(a, "/" + (Number(b) + rest));
    StripInverts("/", Number(b) + rest);
    ReadNumberInverts(b, rest);
  }

  /** The reader up to the name, whatever the name is. */
  lemma HeadInverts(x: Subject)
    requires '[' !in x.base
    ensures var tail := Counter(x.part, x.parts, ")");
            var rest := MIDDLE + (x.name + (CLOSE + tail));
            && CutAt(Printed(x), '[') == Some((x.base + " ", Counter(x.file, x.files, rest)))
            && ReadCounter(Counter(x.file, x.files, rest)) == Some((x.file, x.files, rest))
            && Strip(MIDDLE, rest) == Some(x.name + (CLOSE + tail))
  {
    hide Counter, ReadCounter, CutAt, Strip;
    var tail := Counter(x.part, x.parts, ")");
    var rest := MIDDLE + (x.name + (CLOSE + tail));
    var counted := Counter(x.file, x.files, rest);
    assert OPEN + counted == " " + (['['] + counted);
    assert Printed(x) == (x.base + " ") + (['['] + counted);
    CutAtFirst(x.base + " ", '[', counted);
    assert rest[0] == ']';
    CounterInverts(x.file, x.files, rest);
    StripInverts(MIDDLE, x.name + (CLOSE + tail));
  }

  /** Reading a printed subject gives back every field. */
  lemma ReadInvertsPrint(x: Subject)
    requires '[' !in x.base && '"' !in x.name
    ensures ReadSubject(Printed(x)) == Some(x)
  {
    hide Counter, ReadCounter, CutAt, Strip, Printed;
    HeadInverts(x);
    var tail := Counter(x.part, x.parts, ")");
    assert CLOSE + tail == ['"'] + (" yEnc (" + tail);
    CutAtFirst(x.name, '"', " yEnc (" + tail);
    StripInverts(" yEnc (", tail);
    CounterInverts(x.part, x.parts, ")");
    assert (x.base + " ")[..|x.base|] == x.base;
  }

  /** A title or file name can never inject a marker: the posted subject reads back as it was meant. */
  lemma PostedSubjectReads(releaseName: string, file: nat, files: nat, postName: string, part: nat, parts: nat)
    ensures var x := Subject(SubjectSafe(releaseName), file, files, SubjectSafe(postName), part, parts);
            ReadSubject(Printed(x)) == Some(x)
  {
    hide SubjectSafe, Canonical, ReadSubject, Printed;
    SafeIsCanonical(releaseName);
    SafeIsCanonical(postName);
    CanonicalHasNoMarker(SubjectSafe(releaseName));
    CanonicalHasNoMarker(SubjectSafe(postName));
    ReadInvertsPrint(Subject(SubjectSafe(releaseName), file, files, SubjectSafe(postName), part, parts));
  }

  lemma {:induction false} CutHasNoMark(s: string, c: char)
    ensures CutAt(s, c).Some? ==> c !in CutAt(s, c).value.0
    decreases |s|
  {
    if s != "" {
      CutHasNoMark(s[1..], c);
    }
  }

  /**
   The subject recorded in the NZB carries the relative path as it is. It reads back exactly when
   the path has no double quote.
   */
  lemma RecordedSubjectExact(releaseName: string, file: nat, files: nat, relName: string, parts: nat)
    ensures var x := Subject(SubjectSafe(releaseName), file, files, relName, 1, parts);
            ReadSubject(Printed(x)) == Some(x) <==> '"' !in relName
  {
    hide SubjectSafe, Canonical, Printed, CutAt, ReadCounter, Counter, Strip;
    SafeIsCanonical(releaseName);
    CanonicalHasNoMarker(SubjectSafe(releaseName));
    var x := Subject(SubjectSafe(releaseName), file, files, relName, 1, parts);
    if '"' in relName {
      HeadInverts(x);
      CutHasNoMark(relName + (CLOSE + Counter(1, parts, ")")), '"');
    } else {
      hide ReadSubject;
      ReadInvertsPrint(x);
    }
  }
}
