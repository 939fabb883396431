/**
 * The allergy profile read once at start-up: the comma-separated answer is
 * split on commas, each entry stripped of surrounding whitespace and
 * lower-cased, and the entries left empty are dropped.
 */
module Profile {
  import opened Text

  /** What every profile term looks like: non-empty, trimmed and lower-case. */
  predicate IsTerm(t: string) {
    t != [] && !IsSpace(t[0]) && !IsSpace(t[|t| - 1]) && IsLowerCase(t)
  }

  /** A stripped, non-empty entry stays a term once lower-cased. */
  lemma CleanIsTerm(piece: string)
    requires Strip(piece) != []
    ensures IsTerm(Lower(Strip(piece)))
  {
    StripSpec(piece);
    LowerKeepsEnds(Strip(piece));
  }

  /** The comprehension's filter and map over the pieces of the split answer. */
  function Keep(pieces: seq<string>): (r: seq<string>)
    ensures |r| <= |pieces|
  {
    if pieces == [] then []
    else
      var s := Strip(pieces[0]);
      if s != [] then [Lower(s)] + Keep(pieces[1..]) else Keep(pieces[1..])
  }

  /** Every kept entry is a term. */
  lemma {:induction false} KeepTerms(pieces: seq<string>)
    ensures forall k :: 0 <= k < |Keep(pieces)| ==> IsTerm(Keep(pieces)[k])
  {
    if pieces != [] {
      KeepTerms(pieces[1..]);
      if Strip(pieces[0]) != [] {
        CleanIsTerm(pieces[0]);
      }
    }
  }

  /** `[req.strip().lower() for req in line.split(',') if req.strip()]`. */
  function Parse(line: string): seq<string> {
    Keep(Split(line, ','))
  }

  /** Every parsed term is non-empty, trimmed and lower-case. */
  lemma ParseTerms(line: string)
    ensures forall k :: 0 <= k < |Parse(line)| ==> IsTerm(Parse(line)[k])
    ensures |Parse(line)| <= |Split(line, ',')|
  {
    KeepTerms(Split(line, ','));
  }

  lemma {:induction false} KeepAppend(a: seq<string>, b: seq<string>)
    ensures Keep(a + b) == Keep(a) + Keep(b)
  {
    if a == [] {
      assert a + b == b;
    } else {
      assert (a + b)[1..] == a[1..] + b;
      KeepAppend(a[1..], b);
    }
  }

  /** Terms keep their order: the entries before a comma come before those after it. */
  lemma ParseAppend(a: string, b: string)
    ensures Parse(a + "," + b) == Parse(a) + Parse(b)
  {
    SplitAppend(a, b, ',');
    KeepAppend(Split(a, ','), Split(b, ','));
  }

  /** The entry `piece` is kept and becomes the term `t`. */
  predicate Gives(piece: string, t: string) {
    Strip(piece) != [] && Lower(Strip(piece)) == t
  }

  /** Some entry gives the term `t`. */
  predicate SomeEntryGives(pieces: seq<string>, t: string) {
    exists k :: 0 <= k < |pieces| && Gives(pieces[k], t)
  }

  /** A term is in the profile exactly when some comma-separated entry strips to something that lower-cases to it. */
  lemma {:induction false} KeepMembers(pieces: seq<string>, t: string)
    ensures t in Keep(pieces) <==> SomeEntryGives(pieces, t)
  {
    if pieces != [] {
      KeepMembers(pieces[1..], t);
      if SomeEntryGives(pieces, t) {
        var k :| 0 <= k < |pieces| && Gives(pieces[k], t);
        if k > 0 {
          assert pieces[1..][k - 1] == pieces[k];
        }
      }
      if SomeEntryGives(pieces[1..], t) {
        var k :| 0 <= k < |pieces[1..]| && Gives(pieces[1..][k], t);
        assert pieces[k + 1] == pieces[1..][k];
      }
    }
  }

  lemma ParseMembers(line: string, t: string)
    ensures t in Parse(line) <==> SomeEntryGives(Split(line, ','), t)
  {
    var pieces := Split(line, ',');
    KeepMembers(pieces, t);
    assert Parse(line) == Keep(pieces);
  }

  /** Every entry is blank. */
  predicate AllBlank(pieces: seq<string>) {
    forall k :: 0 <= k < |pieces| ==> AllSpace(pieces[k])
  }

  /** The text holds nothing but whitespace and separators. */
  predicate BlankOrSeparators(s: string, sep: char) {
    forall i :: 0 <= i < |s| ==> IsSpace(s[i]) || s[i] == sep
  }

  /** Only blank entries are dropped. */
  lemma {:induction false} KeepEmpty(pieces: seq<string>)
    ensures Keep(pieces) == [] <==> AllBlank(pieces)
  {
    if pieces != [] {
      KeepEmpty(pieces[1..]);
      StripSpec(pieces[0]);
      if AllBlank(pieces[1..]) {
        forall k | 1 <= k < |pieces| ensures AllSpace(pieces[k]) {
          assert pieces[k] == pieces[1..][k - 1];
        }
      }
    }
  }

  /** The pieces of a split are all blank exactly when the input holds only whitespace and separators. */
  lemma {:induction false} SplitBlank(s: string, sep: char)
    ensures AllBlank(Split(s, sep)) <==> BlankOrSeparators(s, sep)
  {
    if s != [] {
      SplitBlank(s[1..], sep);
      var rest := Split(s[1..], sep);
      if s[0] == sep {
        assert Split(s, sep) == [[]] + rest;
        if AllBlank(rest) {
          forall k | 0 <= k < |Split(s, sep)| ensures AllSpace(Split(s, sep)[k]) {
            if k > 0 { assert Split(s, sep)[k] == rest[k - 1]; }
          }
        }
        if AllBlank(Split(s, sep)) {
          forall k | 0 <= k < |rest| ensures AllSpace(rest[k]) {
            assert rest[k] == Split(s, sep)[k + 1];
          }
        }
      } else {
        var r := Split(s, sep);
        assert r == [[s[0]] + rest[0]] + rest[1..];
        if AllBlank(r) {
          assert AllSpace(r[0]);
          assert IsSpace(s[0]) && AllSpace(rest[0]) by {
            assert r[0][0] == s[0];
            forall i | 0 <= i < |rest[0]| ensures IsSpace(rest[0][i]) {
              assert rest[0][i] == r[0][i + 1];
            }
          }
          forall k | 1 <= k < |rest| ensures AllSpace(rest[k]) {
            assert rest[k] == r[k];
          }
          forall i | 0 <= i < |s| ensures IsSpace(s[i]) || s[i] == sep {
            if i > 0 { assert s[i] == s[1..][i - 1]; }
          }
        }
        if BlankOrSeparators(s, sep) {
          forall i | 0 <= i < |s[1..]| ensures IsSpace(s[1..][i]) || s[1..][i] == sep {
            assert s[1..][i] == s[i + 1];
          }
          forall k | 0 <= k < |r| ensures AllSpace(r[k]) {
            if k > 0 { assert r[k] == rest[k]; }
          }
        }
      }
    }
  }

  /** The profile is empty exactly when the answer is blank or only commas and whitespace. */
  lemma ParseEmpty(line: string)
    ensures Parse(line) == [] <==> BlankOrSeparators(line, ',')
  {
    var pieces := Split(line, ',');
    KeepEmpty(pieces);
    SplitBlank(line, ',');
    assert Parse(line) == Keep(pieces);
  }

  /** An answer without commas gives one term, or none when it is blank. */
  lemma ParseSingle(line: string)
    requires ',' !in line
    ensures !AllSpace(line) ==> Parse(line) == [Lower(Strip(line))]
    ensures AllSpace(line) ==> Parse(line) == []
  {
    SplitNoSep(line, ',');
    StripSpec(line);
  }

  lemma StripExamples()
    ensures Strip(" Nuts") == "Nuts" && Strip("Milk ") == "Milk"
  {
    assert TrimStart(" Nuts") == "Nuts";
    assert TrimEnd("Nuts") == "Nuts";
    assert TrimStart("Milk ") == "Milk ";
    assert TrimEnd("Milk ") == "Milk";
  }

  lemma KeepExamples()
    ensures Keep([" Nuts"]) == ["nuts"] && Keep([" "]) == [] && Keep(["Milk "]) == ["milk"]
  {
    StripExamples();
    assert Lower("Nuts") == "nuts" && Lower("Milk") == "milk";
    assert Strip(" ") == [];
  }

  lemma SplitExamples()
    ensures Split(" Nuts", ',') == [" Nuts"] && Split(" ", ',') == [" "] && Split("Milk ", ',') == ["Milk "]
  {
    SplitNoSep(" Nuts", ',');
    SplitNoSep(" ", ',');
    SplitNoSep("Milk ", ',');
  }

  lemma ParseEntries()
    ensures Parse(" Nuts") == ["nuts"] && Parse(" ") == [] && Parse("Milk ") == ["milk"]
  {
    SplitExamples();
    KeepExamples();
  }

  /** A worked answer: " Nuts, ,Milk " becomes ["nuts", "milk"]. */
  lemma ParseExample()
    ensures Parse(" Nuts" + "," + " " + "," + "Milk ") == ["nuts", "milk"]
  {
    ParseAppend(" Nuts" + "," + " ", "Milk ");
    ParseAppend(" Nuts", " ");
    ParseEntries();
  }
}
