/** The names of the note files, `note_<id>.json`, and how `list_notes`
    reads an id back out of such a name: `int(name.split("_")[1].split(".")[0])`. */
module FileNames {
  import opened Results

  // ---------------------------------------------------------------------
  // str.split(sep) with a one-character separator
  // ---------------------------------------------------------------------

  /** The pieces of `s` between occurrences of `sep`, as Python's `str.split(sep)`
      returns them (there is always at least one piece). */
  function Split(s: string, sep: char): (parts: seq<string>)
    ensures |parts| >= 1
    ensures forall k :: 0 <= k < |parts| ==> sep !in parts[k]
    ensures |parts| == 1 <==> sep !in s
    decreases |s|
  {
    if |s| == 0 then [""]
    else
      var rest := Split(s[1..], sep);
      if s[0] == sep then [""] + rest
      else [[s[0]] + rest[0]] + rest[1..]
  }

  /** `sep.join(parts)`, the inverse of Split. */
  function Join(parts: seq<string>, sep: char): string
    requires |parts| >= 1
    decreases |parts|
  {
    if |parts| == 1 then parts[0] else parts[0] + [sep] + Join(parts[1..], sep)
  }

  /** Joining the pieces again gives back the string that was split. */
  lemma {:induction false} JoinSplit(s: string, sep: char)
    ensures Join(Split(s, sep), sep) == s
    decreases |s|
  {
    if |s| > 0 {
      var rest := Split(s[1..], sep);
      JoinSplit(s[1..], sep);
      if s[0] == sep {
        assert ([""] + rest)[1..] == rest;
      } else {
        var parts := [[s[0]] + rest[0]] + rest[1..];
        if |rest| == 1 {
          assert parts == [[s[0]] + rest[0]];
        } else {
          assert parts[1..] == rest[1..];
          assert Join(rest, sep) == rest[0] + [sep] + Join(rest[1..], sep);
        }
      }
    }
  }

  /** A string without the separator is a single piece. */
  lemma {:induction false} SplitWithoutSeparator(s: string, sep: char)
    requires sep !in s
    ensures Split(s, sep) == [s]
    decreases |s|
  {
    if |s| > 0 {
      SplitWithoutSeparator(s[1..], sep);
      assert [s[0]] + s[1..] == s;
    }
  }

  /** Splitting at the first separator: what comes before it is the first piece. */
  lemma {:induction false} SplitAtFirst(a: string, b: string, sep: char)
    requires sep !in a
    ensures Split(a + [sep] + b, sep) == [a] + Split(b, sep)
    decreases |a|
  {
    var s := a + [sep] + b;
    if |a| == 0 {
      assert s[1..] == b;
    } else {
      assert s[1..] == a[1..] + [sep] + b;
      SplitAtFirst(a[1..], b, sep);
      assert [a[0]] + a[1..] == a;
    }
  }

  // ---------------------------------------------------------------------
  // str(int) and int(str) in decimal
  // ---------------------------------------------------------------------

  predicate IsDigit(c: char) {
    '0' <= c <= '9'
  }

  predicate AllDigits(s: string) {
    forall k :: 0 <= k < |s| ==> IsDigit(s[k])
  }

  function DigitChar(d: nat): (c: char)
    requires d < 10
    ensures IsDigit(c) && c as int - '0' as int == d
  {
    ('0' as int + d) as char
  }

  /** The decimal digits of `n`, most significant first, without leading zeros. */
  function DecimalDigits(n: nat): (s: string)
    ensures |s| >= 1 && AllDigits(s)
    ensures s[0] == '0' <==> n == 0
    ensures |s| > 1 ==> s[0] != '0'
    decreases n
  {
    if n < 10 then [DigitChar(n)] else DecimalDigits(n / 10) + [DigitChar(n % 10)]
  }

  /** The value of a string of decimal digits (leading zeros allowed). */
  function DigitsValue(s: string): nat
    requires AllDigits(s)
    decreases |s|
  {
    if |s| == 0 then 0
    else DigitsValue(s[..|s| - 1]) * 10 + (s[|s| - 1] as int - '0' as int)
  }

  /** Reading the digits of `n` gives `n` back. */
  lemma {:induction false} DigitsValueOfDecimal(n: nat)
    ensures DigitsValue(DecimalDigits(n)) == n
    decreases n
  {
    if n >= 10 {
      var s := DecimalDigits(n);
      assert s[..|s| - 1] == DecimalDigits(n / 10);
      DigitsValueOfDecimal(n / 10);
    }
  }

  /** `str(i)` for a Python int: a minus sign for negative values, then the digits. */
  function FormatInt(i: int): (s: string)
    ensures forall k :: 0 <= k < |s| ==> IsDigit(s[k]) || s[k] == '-'
    ensures |s| >= 1 && (s[0] == '-' <==> i < 0)
    ensures i < 0 ==> |s| >= 2 && s[1] != '0'
    ensures i >= 0 && |s| > 1 ==> s[0] != '0'
  {
    if i < 0 then "-" + DecimalDigits(-i) else DecimalDigits(i)
  }

  /** `int(s)`: an optional sign and at least one decimal digit; None where Python raises ValueError. */
  function ParseInt(s: string): (r: Option<int>)
    ensures r.Some? <==> |s| > 0 && (AllDigits(s) || (|s| > 1 && (s[0] == '-' || s[0] == '+') && AllDigits(s[1..])))
    ensures r.Some? && s[0] == '-' ==> r.value <= 0
    ensures r.Some? && s[0] != '-' ==> r.value >= 0
  {
    if |s| > 0 && (s[0] == '-' || s[0] == '+') then
      var body := s[1..];
      if |body| > 0 && AllDigits(body) then
        var magnitude: int := DigitsValue(body);
        Some(if s[0] == '-' then -magnitude else magnitude)
      else None
    else if |s| > 0 && AllDigits(s) then Some(DigitsValue(s))
    else None
  }

  /** Parsing a formatted integer gives the integer back. */
  lemma FormatThenParse(i: int)
    ensures ParseInt(FormatInt(i)) == Some(i)
  {
    if i < 0 {
      assert FormatInt(i)[1..] == DecimalDigits(-i);
      DigitsValueOfDecimal(-i);
    } else {
      DigitsValueOfDecimal(i);
    }
  }

  // ---------------------------------------------------------------------
  // note file names
  // ---------------------------------------------------------------------

  /** The name under which note `id` is stored: f"note_{id}.json". */
  function FileName(id: int): (name: string)
    ensures |name| == |FormatInt(id)| + 10
  {
    "note_" + FormatInt(id) + ".json"
  }

  /** The id `list_notes` reads out of a directory entry; None where the
      expression would raise (no `_` in the name, or a piece that is not an integer). */
  function ParseId(name: string): (r: Option<int>)
    ensures '_' !in name ==> r.None?
  {
    var parts := Split(name, '_');
    if |parts| < 2 then None
    else ParseInt(Split(parts[1], '.')[0])
  }

  /** The piece `list_notes` hands to `int()` for a formatted name is the formatted id. */
  lemma IdPieceOfFileName(id: int)
    ensures |Split(FileName(id), '_')| >= 2
    ensures Split(Split(FileName(id), '_')[1], '.')[0] == FormatInt(id)
  {
    var digits := FormatInt(id);
    assert '_' !in digits && '.' !in digits;
    var tail := digits + ".json";
    assert FileName(id) == "note" + ['_'] + tail;
    SplitAtFirst("note", tail, '_');
    SplitWithoutSeparator(tail, '_');
    assert tail == digits + ['.'] + "json";
    SplitAtFirst(digits, "json", '.');
  }

  /** Reading the id out of a formatted name gives the id back. */
  lemma ParseIdOfFileName(id: int)
    ensures ParseId(FileName(id)) == Some(id)
  {
    IdPieceOfFileName(id);
    FormatThenParse(id);
  }

  /** Different ids are stored under different names. */
  lemma FileNameInjective(i: int, j: int)
    ensures FileName(i) == FileName(j) <==> i == j
  {
    ParseIdOfFileName(i);
    ParseIdOfFileName(j);
  }
}
