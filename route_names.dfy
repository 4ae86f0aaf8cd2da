/**
 * The display name of a route direction: `"<transport_type> <number>"`, then
 * every `bus` replaced by `Автобус` and every `tram` by `Трамвай`, in that
 * order (Python's `str.replace`: left to right, non-overlapping).
 */
module RouteNames {

  /** `pat` occurs in `s` starting at position `i`. */
  predicate MatchesAt(s: string, pat: string, i: int) {
    0 <= i && i + |pat| <= |s| && s[i..i + |pat|] == pat
  }

  /** `pat` occurs somewhere in `s`. */
  ghost predicate Occurs(s: string, pat: string) {
    exists i :: MatchesAt(s, pat, i)
  }

  /** `s.replace(pat, rep)` for a non-empty `pat`. */
  function Replace(s: string, pat: string, rep: string): string
    requires |pat| > 0
    decreases |s|
  {
    if |s| < |pat| then s
    else if s[..|pat|] == pat then rep + Replace(s[|pat|..], pat, rep)
    else [s[0]] + Replace(s[1..], pat, rep)
  }

  /** `f'{transport_type} {number}'`. */
  function Label(transportType: string, number: string): string {
    transportType + " " + number
  }

  /** The two translations applied to a label, `bus` first. */
  function Translate(name: string): string {
    Replace(Replace(name, "bus", "Автобус"), "tram", "Трамвай")
  }

  /** Where the pattern does not occur, `replace` changes nothing. */
  lemma {:induction false} ReplaceAbsent(s: string, pat: string, rep: string)
    requires |pat| > 0 && !Occurs(s, pat)
    ensures Replace(s, pat, rep) == s
    decreases |s|
  {
    if |s| >= |pat| {
      assert s[0..|pat|] == s[..|pat|];
      var t := s[1..];
      assert !MatchesAt(s, pat, 0);
      OccursTail(s, pat);
      ReplaceAbsent(t, pat, rep);
      assert s == [s[0]] + t;
    }
  }

  /** An occurrence in the tail of a string is an occurrence in the string. */
  lemma OccursTail(s: string, pat: string)
    requires |s| > 0
    ensures Occurs(s[1..], pat) ==> Occurs(s, pat)
  {
    if Occurs(s[1..], pat) {
      var t := s[1..];
      var i :| MatchesAt(t, pat, i);
      assert s[i + 1..i + 1 + |pat|] == t[i..i + |pat|];
      assert MatchesAt(s, pat, i + 1);
    }
  }

  /** A leading occurrence is replaced and the scan resumes after it. */
  lemma ReplaceLeading(t: string, pat: string, rep: string)
    requires |pat| > 0
    ensures Replace(pat + t, pat, rep) == rep + Replace(t, pat, rep)
  {
    assert (pat + t)[..|pat|] == pat;
    assert (pat + t)[|pat|..] == t;
  }

  /**
   * No occurrence can straddle a boundary whose left character is not in
   * the pattern, so the two sides are replaced independently.
   */
  lemma {:induction false} ReplaceSplit(a: string, b: string, pat: string, rep: string)
    requires |pat| > 0 && |a| > 0 && a[|a| - 1] !in pat
    ensures Replace(a + b, pat, rep) == Replace(a, pat, rep) + Replace(b, pat, rep)
    decreases |a|
  {
    var s := a + b;
    if |s| < |pat| {
      assert Replace(b, pat, rep) == b;
    } else if s[..|pat|] == pat {
      if |a| <= |pat| {
        NoMatchAcrossBoundary(a, b, pat);
      }
      assert a[..|pat|] == pat;
      assert s[|pat|..] == a[|pat|..] + b;
      ReplaceSplit(a[|pat|..], b, pat, rep);
    } else {
      assert s[1..] == a[1..] + b;
      if |a| == 1 {
        ReplaceSingle(a, pat, rep);
      } else {
        ReplaceSplit(a[1..], b, pat, rep);
        ReplaceNoLeadingMatch(a, b, pat, rep);
      }
    }
  }

  lemma NoMatchAcrossBoundary(a: string, b: string, pat: string)
    requires |pat| > 0 && |a| > 0 && a[|a| - 1] !in pat
    requires |a| <= |pat| <= |a + b|
    ensures (a + b)[..|pat|] != pat
  {
    assert (a + b)[..|pat|][|a| - 1] == a[|a| - 1];
  }

  lemma ReplaceSingle(a: string, pat: string, rep: string)
    requires |pat| > 0 && |a| == 1 && a[0] !in pat
    ensures Replace(a, pat, rep) == a
  {
    if |pat| == 1 {
      assert a[..1] == a;
      assert a[..1] != pat by {
        assert pat[0] in pat;
      }
      assert Replace(a[1..], pat, rep) == [];
    }
  }

  /** Without a match at the front of `a + b`, `a` has none either and is scanned one character on. */
  lemma ReplaceNoLeadingMatch(a: string, b: string, pat: string, rep: string)
    requires |pat| > 0 && |a| > 1
    requires |a + b| >= |pat| && (a + b)[..|pat|] != pat
    ensures Replace(a, pat, rep) == [a[0]] + Replace(a[1..], pat, rep)
  {
    if |a| >= |pat| {
      assert a[..|pat|] == (a + b)[..|pat|];
    } else {
      assert Replace(a[1..], pat, rep) == a[1..];
      assert a == [a[0]] + a[1..];
    }
  }

  /** A pattern with a character `s` lacks does not occur in `s`. */
  lemma MissingChar(s: string, pat: string, c: char)
    requires c in pat && c !in s
    ensures !Occurs(s, pat)
  {

  }

  /** A label led by the pattern: the pattern is replaced, and a number without it is kept. */
  lemma LeadingStep(word: string, repl: string, number: string)
    requires |word| > 1 && ' ' !in word && !Occurs(number, word)
    ensures Replace(word + (" " + number), word, repl) == repl + (" " + number)
  {
    ReplaceLeading(" " + number, word, repl);
    ReplaceSplit(" ", number, word, repl);
    assert Replace(" ", word, repl) == " ";
    ReplaceAbsent(number, word, repl);
  }

  /** A bus route without `bus` or `tram` in its number is shown as `Автобус <number>`. */
  lemma TranslateBus(number: string)
    requires !Occurs(number, "bus") && !Occurs(number, "tram")
    ensures Translate(Label("bus", number)) == "Автобус " + number
  {
    assert Label("bus", number) == "bus" + (" " + number);
    LeadingStep("bus", "Автобус", number);
    assert "Автобус" + (" " + number) == "Автобус " + number;
    ReplaceSplit("Автобус ", number, "tram", "Трамвай");
    MissingChar("Автобус ", "tram", 't');
    ReplaceAbsent("Автобус ", "tram", "Трамвай");
    ReplaceAbsent(number, "tram", "Трамвай");
  }

  /** A tram route without `bus` or `tram` in its number is shown as `Трамвай <number>`. */
  lemma TranslateTram(number: string)
    requires !Occurs(number, "bus") && !Occurs(number, "tram")
    ensures Translate(Label("tram", number)) == "Трамвай " + number
  {
    assert Label("tram", number) == "tram" + (" " + number);
    TramBusStep(number);
    LeadingStep("tram", "Трамвай", number);
    assert "Трамвай" + (" " + number) == "Трамвай " + number;
  }

  lemma TramBusStep(number: string)
    requires !Occurs(number, "bus")
    ensures Replace("tram" + (" " + number), "bus", "Автобус") == "tram" + (" " + number)
  {
    assert "tram" + (" " + number) == "tram " + number;
    ReplaceSplit("tram ", number, "bus", "Автобус");
    MissingChar("tram ", "bus", 'b');
    ReplaceAbsent("tram ", "bus", "Автобус");
    ReplaceAbsent(number, "bus", "Автобус");
  }

  /** The replacement is on substrings: a `trolleybus` label becomes `trolleyАвтобус <number>`. */
  lemma TranslateTrolleybus(number: string)
    requires !Occurs(number, "bus") && !Occurs(number, "tram")
    ensures Translate(Label("trolleybus", number)) == "trolleyАвтобус " + number
  {
    TrolleybusBusStep(number);
    ReplaceSplit("trolleyАвтобус ", number, "tram", "Трамвай");
    MissingChar("trolleyАвтобус ", "tram", 'm');
    ReplaceAbsent("trolleyАвтобус ", "tram", "Трамвай");
    ReplaceAbsent(number, "tram", "Трамвай");
  }

  lemma TrolleybusBusStep(number: string)
    requires !Occurs(number, "bus")
    ensures Replace(Label("trolleybus", number), "bus", "Автобус") == "trolleyАвтобус " + number
  {
    assert Label("trolleybus", number) == "trolley" + ("bus" + (" " + number));
    TrolleyPrefix(number);
    assert "trolley" + ("Автобус " + number) == "trolleyАвтобус " + number;
  }

  lemma TrolleyPrefix(number: string)
    requires !Occurs(number, "bus")
    ensures Replace("trolley" + ("bus" + (" " + number)), "bus", "Автобус") == "trolley" + ("Автобус " + number)
  {
    var tail := "bus" + (" " + number);
    LeadingStep("bus", "Автобус", number);
    assert Replace(tail, "bus", "Автобус") == "Автобус " + number;
    MissingChar("trolley", "bus", 'b');
    ReplaceAbsent("trolley", "bus", "Автобус");
    ReplaceSplit("trolley", tail, "bus", "Автобус");
  }
}
