/**
 * The API settings (apps/api/app/core/config.py): the CORS origin list
 * parsed from one comma-separated setting, and the check that a database
 * URL was given. Reading the environment and `.env` files is not modelled;
 * the settings are values.
 */
module Config {
  import opened Wrappers

  /** The settings the core reads, with the source's defaults as documented names. */
  datatype Settings = Settings(databaseUrl: string, corsOrigins: string, mediaRoot: string, baseUrl: string)

  const DefaultCorsOrigins: string := "*"
  const DefaultMediaRoot: string := "/data/media"
  const DefaultBaseUrl: string := "http://localhost"
  const MissingDatabaseUrl: string := "DATABASE_URL is required"

  /** The characters Python's `str.strip()` removes (`str.isspace`). */
  predicate IsSpace(c: char) {
    var n := c as int;
    || (0x09 <= n <= 0x0D) || (0x1C <= n <= 0x20) || n == 0x85 || n == 0xA0 || n == 0x1680
    || (0x2000 <= n <= 0x200A) || n == 0x2028 || n == 0x2029 || n == 0x202F || n == 0x205F || n == 0x3000
  }

  /** `s` has no whitespace at either end. */
  predicate Stripped(s: string) {
    s == [] || (!IsSpace(s[0]) && !IsSpace(s[|s| - 1]))
  }

  /** `s.strip()`: `s` less its leading and trailing whitespace. */
  function Strip(s: string): (r: string)
    ensures Stripped(r)
    ensures |r| <= |s|
  {
    if s != [] && IsSpace(s[0]) then Strip(s[1..])
    else if s != [] && IsSpace(s[|s| - 1]) then Strip(s[..|s| - 1])
    else s
  }

  /** What strip removes is whitespace at the two ends: the result is a slice with only whitespace around it. */
  lemma {:induction false} StripRemovesOnlyEdges(s: string) returns (i: nat, j: nat)
    ensures i <= j <= |s| && Strip(s) == s[i..j]
    ensures forall k :: 0 <= k < i ==> IsSpace(s[k])
    ensures forall k :: j <= k < |s| ==> IsSpace(s[k])
  {
    if s != [] && IsSpace(s[0]) {
      var i', j' := StripRemovesOnlyEdges(s[1..]);
      i, j := i' + 1, j' + 1;
      assert s[1..][i'..j'] == s[i..j];
    } else if s != [] && IsSpace(s[|s| - 1]) {
      var i', j' := StripRemovesOnlyEdges(s[..|s| - 1]);
      i, j := i', j';
      assert s[..|s| - 1][i'..j'] == s[i..j];
    } else {
      i, j := 0, |s|;
    }
  }

  /** Stripping removes characters and adds none; in particular no comma. */
  lemma StripAddsNoComma(s: string)
    requires ',' !in s
    ensures ',' !in Strip(s)
  {
    var i, j := StripRemovesOnlyEdges(s);
    assert forall k :: 0 <= k < j - i ==> Strip(s)[k] == s[i + k];
  }

  /** Stripping a stripped string changes nothing. */
  lemma StripIdempotent(s: string)
    requires Stripped(s)
    ensures Strip(s) == s
  {
  }

  /** `",".join(parts)`. */
  function Join(parts: seq<string>): string
    requires |parts| >= 1
  {
    if |parts| == 1 then parts[0] else parts[0] + "," + Join(parts[1..])
  }

  /** `s.split(",")`: the pieces between commas; never empty, and joining them gives `s` back. */
  function Split(s: string): (parts: seq<string>)
    ensures |parts| >= 1
    ensures forall i :: 0 <= i < |parts| ==> ',' !in parts[i]
    ensures Join(parts) == s
  {
    if s == [] then [""]
    else if s[0] == ',' then
      var rest := Split(s[1..]);
      assert s == "" + "," + Join(rest);
      [""] + rest
    else
      var rest := Split(s[1..]);
      var parts := [[s[0]] + rest[0]] + rest[1..];
      assert parts[1..] == rest[1..];
      assert s == [s[0]] + Join(rest);
      parts
  }

  /** A string without commas is one piece. */
  lemma {:induction false} SplitWithoutComma(a: string)
    requires ',' !in a
    ensures Split(a) == [a]
  {
    if a != [] {
      SplitWithoutComma(a[1..]);
      assert [a[0]] + a[1..] == a;
    }
  }

  /** A comma-free piece followed by a comma splits off first. */
  lemma {:induction false} SplitAfterPiece(a: string, b: string)
    requires ',' !in a
    ensures Split(a + "," + b) == [a] + Split(b)
  {
    var s := a + "," + b;
    if a == [] {
      assert s[0] == ',' && s[1..] == b;
    } else {
      assert s[1..] == a[1..] + "," + b;
      SplitAfterPiece(a[1..], b);
      assert [a[0]] + a[1..] == a;
    }
  }

  /** Splitting undoes joining comma-free pieces. */
  lemma {:induction false} SplitJoin(parts: seq<string>)
    requires |parts| >= 1 && forall i :: 0 <= i < |parts| ==> ',' !in parts[i]
    ensures Split(Join(parts)) == parts
  {
    if |parts| == 1 {
      SplitWithoutComma(parts[0]);
    } else {
      SplitJoin(parts[1..]);
      SplitAfterPiece(parts[0], Join(parts[1..]));
    }
  }

  /** The stripped pieces that are not empty, in order. */
  function Kept(parts: seq<string>): (r: seq<string>)
    ensures |r| <= |parts|
    ensures forall i :: 0 <= i < |r| ==> r[i] != [] && Stripped(r[i])
    ensures (forall i :: 0 <= i < |parts| ==> ',' !in parts[i]) ==> forall i :: 0 <= i < |r| ==> ',' !in r[i]
    ensures r == [] <==> forall i :: 0 <= i < |parts| ==> Strip(parts[i]) == []
  {
    if parts == [] then []
    else
      var head := Strip(parts[0]);
      var rest := Kept(parts[1..]);
      assert (forall i :: 0 <= i < |parts| ==> Strip(parts[i]) == [])
         <==> head == [] && forall i :: 0 <= i < |parts[1..]| ==> Strip(parts[1..][i]) == [] by {
        assert forall i :: 0 <= i < |parts[1..]| ==> parts[1..][i] == parts[i + 1];
      }
      assert (forall i :: 0 <= i < |parts| ==> ',' !in parts[i]) ==>
               ',' !in head && forall i :: 0 <= i < |parts[1..]| ==> ',' !in parts[1..][i] by {
        assert forall i :: 0 <= i < |parts[1..]| ==> parts[1..][i] == parts[i + 1];
        if ',' !in parts[0] {
          StripAddsNoComma(parts[0]);
        }
      }
      if head != [] then [head] + rest else rest
  }

  /**
   * `cors_list()`: the comma-separated origins, each stripped, the blank
   * ones dropped; `["*"]` when none remains.
   */
  function CorsList(corsOrigins: string): (r: seq<string>)
    ensures |r| >= 1
    ensures forall i :: 0 <= i < |r| ==> r[i] != [] && Stripped(r[i]) && ',' !in r[i]
    ensures (forall i :: 0 <= i < |Split(corsOrigins)| ==> Strip(Split(corsOrigins)[i]) == []) ==> r == ["*"]
    ensures Kept(Split(corsOrigins)) != [] ==> r == Kept(Split(corsOrigins))
  {
    var raw := Kept(Split(corsOrigins));
    if raw == [] then ["*"] else raw
  }

  /**
   * Positions selected in `tail`, which is `s[1..]`, move up by one in `s`:
   * the entries `kept` at positions `rest` of `tail` sit at positions
   * `shifted` of `s`.
   */
  lemma ShiftPositions(s: seq<string>, tail: seq<string>, kept: seq<string>, rest: seq<nat>) returns (shifted: seq<nat>)
    requires s != [] && tail == s[1..] && |rest| == |kept|
    requires forall k :: 0 <= k < |rest| ==> rest[k] < |tail| && kept[k] == tail[rest[k]]
    requires forall k, l :: 0 <= k < l < |rest| ==> rest[k] < rest[l]
    requires forall i :: 0 <= i < |tail| && i !in rest ==> tail[i] == []
    ensures |shifted| == |kept|
    ensures forall k :: 0 <= k < |shifted| ==> 1 <= shifted[k] < |s| && kept[k] == s[shifted[k]]
    ensures forall k, l :: 0 <= k < l < |shifted| ==> shifted[k] < shifted[l]
    ensures forall i :: 1 <= i < |s| && i !in shifted ==> s[i] == []
  {
    shifted := seq(|rest|, k requires 0 <= k < |rest| => rest[k] + 1);
    forall i | 1 <= i < |s| && i !in shifted
      ensures s[i] == []
    {
      forall k | 0 <= k < |rest|
        ensures rest[k] != i - 1
      {
        assert shifted[k] == rest[k] + 1;
      }
      assert tail[i - 1] == s[i];
    }
  }

  /** The head entry at position 0, then the entries `kept` at positions `shifted`. */
  lemma PrependEntries(s: seq<string>, kept: seq<string>, shifted: seq<nat>)
    requires s != [] && |shifted| == |kept|
    requires forall k :: 0 <= k < |shifted| ==> shifted[k] < |s| && kept[k] == s[shifted[k]]
    ensures var idx, r := [0] + shifted, [s[0]] + kept;
            forall k :: 0 <= k < |idx| ==> idx[k] < |s| && r[k] == s[idx[k]]
  {
    var idx, r := [0] + shifted, [s[0]] + kept;
    forall k | 0 < k < |idx|
      ensures idx[k] < |s| && r[k] == s[idx[k]]
    {
      assert idx[k] == shifted[k - 1] && r[k] == kept[k - 1];
    }
  }

  /** Increasing positions, all from 1 up, stay increasing with 0 in front. */
  lemma PrependIncreasing(shifted: seq<nat>)
    requires forall k :: 0 <= k < |shifted| ==> 1 <= shifted[k]
    requires forall k, l :: 0 <= k < l < |shifted| ==> shifted[k] < shifted[l]
    ensures var idx := [0] + shifted;
            forall k, l :: 0 <= k < l < |idx| ==> idx[k] < idx[l]
  {
    var idx := [0] + shifted;
    forall k, l | 0 <= k < l < |idx|
      ensures idx[k] < idx[l]
    {
      assert idx[l] == shifted[l - 1];
      if k > 0 {
        assert idx[k] == shifted[k - 1];
      }
    }
  }

  /** With 0 in front, the positions left out are those left out before, apart from 0. */
  lemma PrependCovers(s: seq<string>, shifted: seq<nat>)
    requires s != [] && s[0] != []
    requires forall i :: 1 <= i < |s| && i !in shifted ==> s[i] == []
    ensures forall i :: 0 <= i < |s| && i !in [0] + shifted ==> s[i] == []
  {
    forall i | 0 <= i < |s| && i !in [0] + shifted
      ensures s[i] == []
    {
      assert i != 0 && i !in shifted;
    }
  }

  /**
   * One more step of an ordered filter over the entries `s`: the entries
   * selected at positions `shifted`, preceded by `s[0]` when it is not
   * empty, are `r`, the entries of `s` at positions `idx`.
   */
  lemma ConsPositions(s: seq<string>, kept: seq<string>, shifted: seq<nat>, r: seq<string>) returns (idx: seq<nat>)
    requires s != [] && |shifted| == |kept|
    requires forall k :: 0 <= k < |shifted| ==> 1 <= shifted[k] < |s| && kept[k] == s[shifted[k]]
    requires forall k, l :: 0 <= k < l < |shifted| ==> shifted[k] < shifted[l]
    requires forall i :: 1 <= i < |s| && i !in shifted ==> s[i] == []
    requires r == if s[0] != [] then [s[0]] + kept else kept
    ensures |idx| == |r|
    ensures forall k :: 0 <= k < |idx| ==> idx[k] < |s| && r[k] == s[idx[k]]
    ensures forall k, l :: 0 <= k < l < |idx| ==> idx[k] < idx[l]
    ensures forall i :: 0 <= i < |s| && i !in idx ==> s[i] == []
  {
    if s[0] != [] {
      idx := [0] + shifted;
      PrependEntries(s, kept, shifted);
      PrependIncreasing(shifted);
      PrependCovers(s, shifted);
    } else {
      idx := shifted;
    }
  }

  /** Positions of an ordered filter over the stripped pieces, restated about the pieces themselves. */
  lemma StrippedPositions(parts: seq<string>, s: seq<string>, r: seq<string>, idx: seq<nat>)
    requires |s| == |parts| && forall i :: 0 <= i < |parts| ==> s[i] == Strip(parts[i])
    requires |idx| == |r|
    requires forall k :: 0 <= k < |idx| ==> idx[k] < |s| && r[k] == s[idx[k]]
    requires forall i :: 0 <= i < |s| && i !in idx ==> s[i] == []
    ensures forall k :: 0 <= k < |idx| ==> idx[k] < |parts| && r[k] == Strip(parts[idx[k]])
    ensures forall i :: 0 <= i < |parts| && i !in idx ==> Strip(parts[i]) == []
  {
  }

  /** The strings of `s` that are not empty, in order. */
  function NonEmpty(s: seq<string>): seq<string>
  {
    if s == [] then []
    else if s[0] != [] then [s[0]] + NonEmpty(s[1..])
    else NonEmpty(s[1..])
  }

  /** The pieces, each stripped. */
  function StripAll(parts: seq<string>): seq<string>
  {
    seq(|parts|, i requires 0 <= i < |parts| => Strip(parts[i]))
  }

  /** `Kept` strips every piece, then drops the empty ones. */
  lemma {:induction false} KeptIsNonEmptyOfStripped(parts: seq<string>)
    ensures Kept(parts) == NonEmpty(StripAll(parts))
  {
    if parts != [] {
      KeptIsNonEmptyOfStripped(parts[1..]);
      assert StripAll(parts)[1..] == StripAll(parts[1..]);
    }
  }

  /** `NonEmpty` is an ordered filter: its entries sit at increasing positions `idx`, and every other entry is empty. */
  lemma {:induction false} NonEmptyPositions(s: seq<string>) returns (idx: seq<nat>)
    ensures |idx| == |NonEmpty(s)|
    ensures forall k :: 0 <= k < |idx| ==> idx[k] < |s| && NonEmpty(s)[k] == s[idx[k]]
    ensures forall k, l :: 0 <= k < l < |idx| ==> idx[k] < idx[l]
    ensures forall i :: 0 <= i < |s| && i !in idx ==> s[i] == []
  {
    if s == [] {
      return [];
    }
    var tail := s[1..];
    var rest := NonEmptyPositions(tail);
    var shifted := ShiftPositions(s, tail, NonEmpty(tail), rest);
    idx := ConsPositions(s, NonEmpty(tail), shifted, NonEmpty(s));
  }

  /**
   * `Kept` is an ordered filter: its entries are the stripped pieces at
   * increasing positions `idx`, and every piece left out strips to nothing.
   */
  lemma KeptIsOrderedFilter(parts: seq<string>) returns (idx: seq<nat>)
    ensures |idx| == |Kept(parts)|
    ensures forall k :: 0 <= k < |idx| ==> idx[k] < |parts| && Kept(parts)[k] == Strip(parts[idx[k]])
    ensures forall k, l :: 0 <= k < l < |idx| ==> idx[k] < idx[l]
    ensures forall i :: 0 <= i < |parts| && i !in idx ==> Strip(parts[i]) == []
  {
    KeptIsNonEmptyOfStripped(parts);
    idx := NonEmptyPositions(StripAll(parts));
    StrippedPositions(parts, StripAll(parts), Kept(parts), idx);
  }

  /** Comma-separated origins with at least one non-blank piece read back as exactly the kept pieces. */
  lemma CorsListOfJoin(pieces: seq<string>)
    requires |pieces| >= 1 && forall i :: 0 <= i < |pieces| ==> ',' !in pieces[i]
    requires exists i :: 0 <= i < |pieces| && Strip(pieces[i]) != []
    ensures CorsList(Join(pieces)) == Kept(pieces)
  {
    SplitJoin(pieces);
  }

  /** Pieces that need no stripping are all kept. */
  lemma {:induction false} KeptKeepsCleanPieces(parts: seq<string>)
    requires forall i :: 0 <= i < |parts| ==> parts[i] != [] && Stripped(parts[i])
    ensures Kept(parts) == parts
  {
    if parts != [] {
      StripIdempotent(parts[0]);
      KeptKeepsCleanPieces(parts[1..]);
    }
  }

  /** A list of clean origins written comma-separated is read back as that list. */
  lemma CorsListRoundTrip(origins: seq<string>)
    requires |origins| >= 1
    requires forall i :: 0 <= i < |origins| ==> origins[i] != [] && Stripped(origins[i]) && ',' !in origins[i]
    ensures CorsList(Join(origins)) == origins
  {
    SplitJoin(origins);
    KeptKeepsCleanPieces(origins);
  }

  /** The default allows every origin. */
  lemma DefaultAllowsAll()
    ensures CorsList(DefaultCorsOrigins) == ["*"]
  {
    SplitWithoutComma(DefaultCorsOrigins);
    assert Strip("*") == "*";
  }

  /** `model_post_init`: settings without a database URL are refused. */
  function PostInit(s: Settings): (r: Result<Settings, string>)
    ensures r.Failure? <==> s.databaseUrl == []
    ensures r.Failure? ==> r.error == MissingDatabaseUrl
    ensures r.Success? ==> r.value == s
  {
    if s.databaseUrl == [] then Failure(MissingDatabaseUrl) else Success(s)
  }
}
