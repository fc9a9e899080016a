/**
 * The duration wording shared by `prettify_time` and both timers'
 * `_prettify_time`: whole seconds become "H hours, M minutes, S seconds"
 * with zero parts left out, or "a moment" when every part is zero.
 * The reader here is the partner of the wording: it recovers the
 * number of seconds from the text.
 */
module Durations {
  import opened Base
  import opened PyStr

  datatype Parts = Parts(hours: int, minutes: nat, seconds: nat)

  /**
   * `divmod(n, 60)` and then `divmod(minutes, 60)`.  Python floors; for a
   * positive divisor Dafny's division agrees, so a negative `n` gets
   * negative hours and minutes and seconds in 0..59.
   */
  function Decompose(n: int): (p: Parts)
    ensures p.hours * 3600 + p.minutes * 60 + p.seconds == n
    ensures p.minutes < 60 && p.seconds < 60
  {
    Parts((n / 60) / 60, (n / 60) % 60, n % 60)
  }

  /** The decomposition is the only one with minutes and seconds below 60. */
  lemma DecomposeUnique(n: int, p: Parts)
    requires p.hours * 3600 + p.minutes * 60 + p.seconds == n
    requires p.minutes < 60 && p.seconds < 60
    ensures p == Decompose(n)
  {
    var q := p.hours * 60 + p.minutes;
    assert n == q * 60 + p.seconds;
    DivUnique(n, q, p.seconds);
    DivUnique(q, p.hours, p.minutes);
  }

  lemma DivUnique(n: int, q: int, r: int)
    requires n == q * 60 + r && 0 <= r < 60
    ensures n / 60 == q && n % 60 == r
  {
  }

  /** One part of the wording: a count and its unit. */
  datatype Term = Term(count: int, unit: string)

  const Units: seq<string> := ["hours", "minutes", "seconds"]

  /** Seconds per unit. */
  function Scale(unit: string): int {
    if unit == "hours" then 3600 else if unit == "minutes" then 60 else 1
  }

  /** The non-zero parts, hours first. */
  function Terms(p: Parts): (r: seq<Term>)
    ensures forall k :: 0 <= k < |r| ==> r[k].count != 0 && r[k].unit in Units
    ensures r == [] <==> p.hours == 0 && p.minutes == 0 && p.seconds == 0
    ensures |r| <= 3
  {
    (if p.hours != 0 then [Term(p.hours, "hours")] else []) +
    (if p.minutes != 0 then [Term(p.minutes, "minutes")] else []) +
    (if p.seconds != 0 then [Term(p.seconds, "seconds")] else [])
  }

  /** The seconds one part stands for. */
  function Seconds(t: Term): int {
    t.count * Scale(t.unit)
  }

  /** The seconds a list of parts stands for. */
  function Value(terms: seq<Term>): int {
    if terms == [] then 0 else Seconds(terms[0]) + Value(terms[1..])
  }

  lemma {:induction false} ValueConcat(a: seq<Term>, b: seq<Term>)
    ensures Value(a + b) == Value(a) + Value(b)
  {
    if a == [] {
      assert a + b == b;
    } else {
      assert (a + b)[1..] == a[1..] + b;
      ValueConcat(a[1..], b);
    }
  }

  /** Leaving out the zero parts loses no seconds. */
  lemma TermsValue(p: Parts)
    ensures Value(Terms(p)) == p.hours * 3600 + p.minutes * 60 + p.seconds
  {
    var h := if p.hours != 0 then [Term(p.hours, "hours")] else [];
    var m := if p.minutes != 0 then [Term(p.minutes, "minutes")] else [];
    var s := if p.seconds != 0 then [Term(p.seconds, "seconds")] else [];
    ValueConcat(h + m, s);
    ValueConcat(h, m);
  }

  /** `f"{count} {unit}"`. */
  function Piece(t: Term): (r: string)
    ensures |r| >= 1 && (IsDigit(r[0]) || r[0] == '-')
  {
    IntToString(t.count) + " " + t.unit
  }

  function Pieces(terms: seq<Term>): (r: seq<string>)
    ensures |r| == |terms|
    ensures forall k :: 0 <= k < |terms| ==> r[k] == Piece(terms[k])
  {
    seq(|terms|, k requires 0 <= k < |terms| => Piece(terms[k]))
  }

  /** `", ".join(parts) if parts else "a moment"`. */
  function Render(terms: seq<Term>): string {
    if terms == [] then "a moment" else Join(Pieces(terms), ", ")
  }

  /** The wording of `n` seconds. */
  function Spell(n: int): (r: string)
    ensures r == "a moment" <==> n == 0
  {
    var terms := Terms(Decompose(n));
    if terms == [] then Render(terms)
    else JoinHead(Pieces(terms), ", "); Render(terms)
  }

  lemma JoinHead(parts: seq<string>, sep: string)
    requires |parts| >= 1 && parts[0] != []
    ensures Join(parts, sep) != [] && Join(parts, sep)[0] == parts[0][0]
  {
  }

  // ---- reading the wording back ----

  /** One comma-separated piece: a number, a space, a unit. */
  function ReadPiece(piece: string): Option<int> {
    ReadWords(Split(Strip(piece), ' '))
  }

  /** A number and a unit name stand for that many of the unit's seconds. */
  function ReadWords(words: seq<string>): Option<int> {
    if |words| != 2 then None
    else
      var count := ParseInt(words[0]);
      if count.Some? && words[1] in Units then Some(Seconds(Term(count.value, words[1]))) else None
  }

  /** The sum of what `read` makes of each piece; `None` if it rejects one. */
  function ReadPieces(pieces: seq<string>, read: string -> Option<int>): Option<int> {
    if pieces == [] then Some(0)
    else
      var head := read(pieces[0]);
      var tail := ReadPieces(pieces[1..], read);
      if head.Some? && tail.Some? then Some(head.value + tail.value) else None
  }

  /** The number of seconds a wording stands for. */
  function Read(text: string): Option<int> {
    if text == "a moment" then Some(0) else ReadPieces(Split(text, ','), ReadPiece)
  }

  lemma PieceWords(t: Term)
    requires t.unit in Units
    ensures Split(Piece(t), ' ') == [IntToString(t.count), t.unit]
  {
    var d := IntToString(t.count);
    assert ' ' !in d by {
      forall k | 0 <= k < |d| ensures d[k] != ' ' {}
    }
    assert Piece(t) == d + [' '] + t.unit;
    SplitCons(d, t.unit, ' ');
    UnitWords(t.unit);
  }

  lemma UnitWords(unit: string)
    requires unit in Units
    ensures Split(unit, ' ') == [unit]
  {
    assert ' ' !in unit by {
      assert unit == "hours" || unit == "minutes" || unit == "seconds";
    }
    SplitWithout(unit, ' ');
  }

  /** A piece, with or without the space a `", "` separator leaves before it, reads as its seconds. */
  lemma ReadPieceOf(t: Term, lead: string)
    requires t.unit in Units
    requires lead == [] || lead == " "
    ensures ReadPiece(lead + Piece(t)) == Some(Seconds(t))
  {
    var words := [IntToString(t.count), t.unit];
    assert Split(Strip(lead + Piece(t)), ' ') == words by {
      StripPiece(t, lead);
      PieceWords(t);
    }
    ReadWordsOf(t);
  }

  lemma ReadWordsOf(t: Term)
    requires t.unit in Units
    ensures ReadWords([IntToString(t.count), t.unit]) == Some(Seconds(t))
  {
    ParseIntToString(t.count);
  }

  /** Neither a leading space nor the piece's own ends are stripped away. */
  lemma StripPiece(t: Term, lead: string)
    requires t.unit in Units
    requires lead == [] || lead == " "
    ensures Strip(lead + Piece(t)) == Piece(t)
  {
    var s := Piece(t);
    assert !IsSpace(s[0]);
    assert s[|s| - 1] == 's';
    LStripPrefixed(s, []);
    assert s + [] == s;
    if lead == " " {
      assert (lead + s)[1..] == s;
      assert LStrip(lead + s) == LStrip(s);
    } else {
      assert lead + s == s;
    }
    assert LStrip(lead + s) == s;
    assert RStrip(s) == s;
  }

  /** Each piece with a space in front. */
  function Spaced(parts: seq<string>): (r: seq<string>)
    ensures |r| == |parts|
    ensures forall k :: 0 <= k < |parts| ==> r[k] == " " + parts[k]
  {
    seq(|parts|, k requires 0 <= k < |parts| => " " + parts[k])
  }

  lemma JoinPrefixHead(x: string, parts: seq<string>, sep: string)
    requires |parts| >= 1
    ensures Join([x + parts[0]] + parts[1..], sep) == x + Join(parts, sep)
  {
    var ps := [x + parts[0]] + parts[1..];
    assert ps[1..] == parts[1..];
  }

  /** Joining with `", "` is joining with `","` pieces that, after the first, start with a space. */
  lemma {:induction false} JoinComma(parts: seq<string>)
    requires |parts| >= 1
    ensures Join(parts, ", ") == Join([parts[0]] + Spaced(parts[1..]), ",")
  {
    if |parts| > 1 {
      var rest := parts[1..];
      JoinComma(rest);
      JoinPrefixHead(" ", [rest[0]] + Spaced(rest[1..]), ",");
      assert [" " + rest[0]] + Spaced(rest[1..]) == Spaced(rest);
      var ps := [parts[0]] + Spaced(rest);
      assert ps[1..] == Spaced(rest);
      assert Join(parts, ", ") == parts[0] + "," + (" " + Join(rest, ", "));
    }
  }

  lemma {:induction false} ReadSpaced(terms: seq<Term>, read: string -> Option<int>)
    requires forall k :: 0 <= k < |terms| ==>
               read(" " + Piece(terms[k])) == Some(Seconds(terms[k]))
    ensures ReadPieces(Spaced(Pieces(terms)), read) == Some(Value(terms))
  {
    var ps := Spaced(Pieces(terms));
    if terms == [] {
      assert ps == [];
    } else {
      var rest := terms[1..];
      assert ps[1..] == Spaced(Pieces(rest));
      ReadSpaced(rest, read);
      ReadPiecesCons(ps[0], ps[1..], read, Seconds(terms[0]), Value(rest));
      assert [ps[0]] + ps[1..] == ps;
    }
  }

  /** Every spaced piece reads as its seconds. */
  lemma ReadEachSpaced(terms: seq<Term>)
    requires forall k :: 0 <= k < |terms| ==> terms[k].unit in Units
    ensures forall k :: 0 <= k < |terms| ==>
              ReadPiece(" " + Piece(terms[k])) == Some(Seconds(terms[k]))
  {
    forall k | 0 <= k < |terms|
      ensures ReadPiece(" " + Piece(terms[k])) == Some(Seconds(terms[k]))
    {
      ReadPieceOf(terms[k], " ");
    }
  }

  lemma ReadPiecesCons(piece: string, rest: seq<string>, read: string -> Option<int>, a: int, b: int)
    requires read(piece) == Some(a) && ReadPieces(rest, read) == Some(b)
    ensures ReadPieces([piece] + rest, read) == Some(a + b)
  {
    assert ([piece] + rest)[1..] == rest;
  }

  /** No piece holds the comma that separates pieces. */
  lemma NoCommaInPieces(terms: seq<Term>)
    requires forall k :: 0 <= k < |terms| ==> terms[k].unit in Units
    ensures forall k :: 0 <= k < |terms| ==> ',' !in Pieces(terms)[k]
  {
    forall k | 0 <= k < |terms|
      ensures ',' !in Pieces(terms)[k]
    {
      var t := terms[k];
      var d := IntToString(t.count);
      assert forall j :: 0 <= j < |d| ==> d[j] != ',';
      assert Piece(t) == d + " " + t.unit;
    }
  }

  /** Splitting a `", "`-join at the commas leaves the pieces, all but the first after a space. */
  lemma SplitCommaJoin(parts: seq<string>)
    requires |parts| >= 1
    requires forall k :: 0 <= k < |parts| ==> ',' !in parts[k]
    ensures Split(Join(parts, ", "), ',') == [parts[0]] + Spaced(parts[1..])
  {
    var commaParts := [parts[0]] + Spaced(parts[1..]);
    JoinComma(parts);
    forall k | 0 <= k < |commaParts|
      ensures ',' !in commaParts[k]
    {
      if k > 0 {
        assert commaParts[k] == " " + parts[k];
      }
    }
    SplitJoin(commaParts, ',');
  }

  lemma ReadJoinedParts(parts: seq<string>, read: string -> Option<int>, head: int, tail: int)
    requires |parts| >= 1
    requires forall k :: 0 <= k < |parts| ==> ',' !in parts[k]
    requires read(parts[0]) == Some(head) && ReadPieces(Spaced(parts[1..]), read) == Some(tail)
    ensures ReadPieces(Split(Join(parts, ", "), ','), read) == Some(head + tail)
  {
    SplitCommaJoin(parts);
    ReadPiecesCons(parts[0], Spaced(parts[1..]), read, head, tail);
  }

  lemma ReadOther(text: string)
    requires text != "a moment"
    ensures Read(text) == ReadPieces(Split(text, ','), ReadPiece)
  {
  }

  /** A comma-joined wording whose pieces each read correctly reads as their sum. */
  lemma ReadBack(text: string, parts: seq<string>, n: int, head: int, tail: int)
    requires |parts| >= 1 && text == Join(parts, ", ") && text != "a moment"
    requires forall k :: 0 <= k < |parts| ==> ',' !in parts[k]
    requires ReadPiece(parts[0]) == Some(head)
    requires ReadPieces(Spaced(parts[1..]), ReadPiece) == Some(tail)
    requires head + tail == n
    ensures Read(text) == Some(n)
  {
    var pieces := Split(text, ',');
    ReadJoinedParts(parts, ReadPiece, head, tail);
    assert ReadPieces(pieces, ReadPiece) == Some(n);
    ReadOther(text);
  }

  /** The first piece of a wording reads back as the seconds of its part. */
  lemma ReadFirstPiece(terms: seq<Term>)
    requires terms != [] && terms[0].unit in Units
    ensures ReadPiece(Pieces(terms)[0]) == Some(Seconds(terms[0]))
  {
    ReadPieceOf(terms[0], []);
    assert [] + Piece(terms[0]) == Piece(terms[0]);
  }

  /** The later pieces, each after the space that follows a comma, read back as their sum. */
  lemma ReadLaterPieces(terms: seq<Term>)
    requires terms != []
    requires forall k :: 0 <= k < |terms| ==> terms[k].unit in Units
    ensures ReadPieces(Spaced(Pieces(terms)[1..]), ReadPiece) == Some(Value(terms[1..]))
  {
    ReadEachSpaced(terms[1..]);
    ReadSpaced(terms[1..], ReadPiece);
    assert Pieces(terms[1..]) == Pieces(terms)[1..];
  }

  /** Reading the wording of `n` seconds gives `n` back. */
  lemma ReadSpell(n: int)
    ensures Read(Spell(n)) == Some(n)
  {
    var terms := Terms(Decompose(n));
    TermsValue(Decompose(n));
    if terms != [] {
      var parts := Pieces(terms);
      var head := Seconds(terms[0]);
      var tail := Value(terms[1..]);
      assert head + tail == n;
      var text := Spell(n);
      assert text == Join(parts, ", ") && text != "a moment";
      NoCommaInPieces(terms);
      ReadFirstPiece(terms);
      ReadLaterPieces(terms);
      ReadBack(text, parts, n, head, tail);
    }
  }

  /** Different numbers of seconds are never worded alike. */
  lemma SpellInjective(m: int, n: int)
    requires Spell(m) == Spell(n)
    ensures m == n
  {
    ReadSpell(m);
    ReadSpell(n);
  }

  /**
   * A comma-free phrase of three or more words is no wording: every piece
   * of a wording is exactly a number and a unit.
   */
  lemma ReadPhrase(w1: string, w2: string, rest: string)
    requires ' ' !in w1 && ' ' !in w2
    requires ',' !in w1 + [' '] + w2 + [' '] + rest
    requires Stripped(w1 + [' '] + w2 + [' '] + rest)
    requires w1 + [' '] + w2 + [' '] + rest != "a moment"
    ensures Read(w1 + [' '] + w2 + [' '] + rest) == None
  {
    var text := w1 + [' '] + w2 + [' '] + rest;
    assert Split(text, ',') == [text] by {
      SplitWithout(text, ',');
    }
    assert |Split(Strip(text), ' ')| >= 3 by {
      StripOfStripped(text);
      assert text == w1 + [' '] + (w2 + [' '] + rest);
      SplitCons(w1, w2 + [' '] + rest, ' ');
      SplitCons(w2, rest, ' ');
    }
    assert ReadPiece(text) == None;
  }

  /** A negative number of seconds is worded with negative hours first. */
  lemma SpellNegative(n: int)
    requires n < 0
    ensures Spell(n)[0] == '-'
  {
    var p := Decompose(n);
    assert p.hours < 0 by {
      assert n / 60 < 0;
    }
    var terms := Terms(p);
    assert terms[0] == Term(p.hours, "hours");
    assert Pieces(terms)[0] == IntToString(p.hours) + " " + "hours";
    JoinHead(Pieces(terms), ", ");
  }

  /** "Invalid time", the refusal of a negative time, is no wording. */
  lemma ReadInvalidTime()
    ensures Read("Invalid time") == None
  {
    var text := "Invalid time";
    assert Split(text, ',') == [text] by {
      SplitWithout(text, ',');
    }
    assert ReadPiece(text) == None by {
      StripOfStripped(text);
      InvalidTimeWords();
      NotANumber();
    }
  }

  lemma InvalidTimeWords()
    ensures Split("Invalid time", ' ') == ["Invalid", "time"]
  {
    assert "Invalid time" == "Invalid" + [' '] + "time";
    SplitCons("Invalid", "time", ' ');
    SplitWithout("time", ' ');
  }

  lemma NotANumber()
    ensures ParseInt("Invalid") == None
  {
    StripOfStripped("Invalid");
    assert !IsDigit("Invalid"[0]);
  }

  /** The timers' other answers, "Timer is not active" and "Timer expired recently", are no wordings. */
  lemma ReadTimerAnswers()
    ensures Read("Timer is not active") == None
    ensures Read("Timer expired recently") == None
  {
    ReadNotActive();
    ReadExpired();
  }

  lemma ReadNotActive()
    ensures Read("Timer is not active") == None
  {
    var text, w := "Timer is not active", "not active";
    assert text == "Timer" + [' '] + "is" + [' '] + w;
    assert Stripped(text) by {
      assert !IsSpace(text[0]) && !IsSpace(text[|text| - 1]);
    }
    ReadPhrase("Timer", "is", w);
  }

  lemma ReadExpired()
    ensures Read("Timer expired recently") == None
  {
    var text, w := "Timer expired recently", "recently";
    assert text == "Timer" + [' '] + "expired" + [' '] + w;
    assert Stripped(text) by {
      assert !IsSpace(text[0]) && !IsSpace(text[|text| - 1]);
    }
    ReadPhrase("Timer", "expired", w);
  }
}
