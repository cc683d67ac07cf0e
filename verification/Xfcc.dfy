/** The `x-forwarded-client-cert` header parser: two nested quote-aware splits, a field parser, an unescaper. */
module Xfcc {
  import opened Text
  import opened Wrappers

  datatype QuoteError = DanglingEscape | UnterminatedQuote | DanglingEscapeInQuotedString

  datatype FieldError =
    | InvalidValue(key: string, cause: QuoteError)
    | InvalidEntry(cause: QuoteError)
    | MissingEquals(part: string)
    | EmptyFieldName

  const QUOTE: char := '\"'
  const BACKSLASH: char := '\\'

  // ---------- Specification: quote state and pieces ----------

  /** What the splitter remembers between two characters. */
  datatype QuoteState = QuoteState(inQuotes: bool, escaped: bool)

  const OUTSIDE := QuoteState(false, false)
  const INSIDE := QuoteState(true, false)

  function Step(st: QuoteState, c: char): QuoteState {
    if st.escaped then st.(escaped := false)
    else if c == BACKSLASH then (if st.inQuotes then st.(escaped := true) else st)
    else if c == QUOTE then st.(inQuotes := !st.inQuotes)
    else st
  }

  function Scan(st: QuoteState, s: string): QuoteState {
    if s == [] then st else Step(Scan(st, s[..|s| - 1]), s[|s| - 1])
  }

  /** The text opens and closes all its quotes. */
  predicate Balanced(s: string) { Scan(OUTSIDE, s) == OUTSIDE }

  /** A separator met in this state ends a piece. */
  predicate Separates(st: QuoteState, c: char, sep: char) {
    !st.escaped && c != BACKSLASH && c != QUOTE && c == sep && !st.inQuotes
  }

  /** The text cut at every separator outside quotes, before trimming. */
  function Pieces(s: string, sep: char): (ps: seq<string>)
    ensures |ps| >= 1
  {
    if s == [] then [[]]
    else
      var front, c := s[..|s| - 1], s[|s| - 1];
      var ps := Pieces(front, sep);
      if Separates(Scan(OUTSIDE, front), c, sep) then ps + [[]]
      else ps[..|ps| - 1] + [ps[|ps| - 1] + [c]]
  }

  function TrimAll(ps: seq<string>): (r: seq<string>)
    ensures |r| == |ps| && forall i :: 0 <= i < |ps| ==> r[i] == TrimSpace(ps[i])
  {
    seq(|ps|, i requires 0 <= i < |ps| => TrimSpace(ps[i]))
  }

  /** What `splitOutsideQuotes` computes. */
  function SplitOutside(s: string, sep: char): Result<seq<string>, QuoteError> {
    var st := Scan(OUTSIDE, s);
    if st.escaped then Err(DanglingEscape)
    else if st.inQuotes then Err(UnterminatedQuote)
    else Ok(TrimAll(Pieces(s, sep)))
  }

  // ---------- Specification: unquoting and fields ----------

  /** The unescaped text so far, and whether the last backslash still waits for its character. */
  function UnescapeScan(s: string): (string, bool) {
    if s == [] then ([], false)
    else
      var (out, escaped) := UnescapeScan(s[..|s| - 1]);
      var c := s[|s| - 1];
      if !escaped && c == BACKSLASH then (out, true) else (out + [c], false)
  }

  function Unescape(s: string): Result<string, QuoteError> {
    var (out, escaped) := UnescapeScan(s);
    if escaped then Err(DanglingEscapeInQuotedString) else Ok(out)
  }

  function Unquote(v: string): Result<string, QuoteError> {
    if |v| >= 2 && v[0] == QUOTE && v[|v| - 1] == QUOTE then Unescape(v[1..|v| - 1]) else Ok(v)
  }

  /** One `;`-separated part: nothing for a blank part, otherwise a key and its unquoted value. */
  function ParsePart(raw: string): Result<Option<(string, string)>, FieldError> {
    var part := TrimSpace(raw);
    if part == [] then Ok(None)
    else
      var (k, v, found) := Cut(part, '=');
      if !found then Err(MissingEquals(part))
      else
        var key := TrimSpace(k);
        if key == [] then Err(EmptyFieldName)
        else match Unquote(TrimSpace(v))
          case Err(e) => Err(InvalidValue(key, e))
          case Ok(value) => Ok(Some((key, value)))
  }

  /** The fields of a list of parts: the first bad part fails, a repeated key takes its last value. */
  function ParseParts(parts: seq<string>): Result<map<string, string>, FieldError> {
    if parts == [] then Ok(map[])
    else match ParseParts(parts[..|parts| - 1])
      case Err(e) => Err(e)
      case Ok(fields) =>
        match ParsePart(parts[|parts| - 1])
        case Err(e) => Err(e)
        case Ok(None) => Ok(fields)
        case Ok(Some(field)) => Ok(fields[field.0 := field.1])
  }

  function SplitFailure(entry: string, cause: QuoteError): FieldError {
    var (k, _, found) := Cut(entry, '=');
    if found && TrimSpace(k) != [] then InvalidValue(TrimSpace(k), cause) else InvalidEntry(cause)
  }

  function ParseFields(entry: string): Result<map<string, string>, FieldError> {
    match SplitOutside(entry, ';')
    case Err(cause) => Err(SplitFailure(entry, cause))
    case Ok(parts) => ParseParts(parts)
  }

  // ---------- The parser ----------

  /** The pieces of a text one character longer. */
  lemma PiecesSnoc(front: string, c: char, sep: char)
    ensures Scan(OUTSIDE, front + [c]) == Step(Scan(OUTSIDE, front), c)
    ensures var ps := Pieces(front, sep);
      Pieces(front + [c], sep) ==
        if Separates(Scan(OUTSIDE, front), c, sep) then ps + [[]]
        else ps[..|ps| - 1] + [ps[|ps| - 1] + [c]]
  {
    assert (front + [c])[..|front|] == front;
  }

  lemma TrimAllAppend(ps: seq<string>, p: string)
    ensures TrimAll(ps + [p]) == TrimAll(ps) + [TrimSpace(p)]
  {
  }

  method SplitOutsideQuotes(s: string, sep: char) returns (r: Result<seq<string>, QuoteError>)
    ensures r == SplitOutside(s, sep)
  {
    var result: seq<string> := [];
    var current := "";
    var inQuotes, escaped := false, false;
    ghost var done: seq<string> := [];
    for i := 0 to |s|
      invariant Scan(OUTSIDE, s[..i]) == QuoteState(inQuotes, escaped)
      invariant Pieces(s[..i], sep) == done + [current]
      invariant result == TrimAll(done)
    {
      var c := s[i];
      assert s[..i + 1] == s[..i] + [c];
      PiecesSnoc(s[..i], c, sep);
      if escaped {
        current := current + [c];
        escaped := false;
      } else if c == BACKSLASH {
        current := current + [c];
        if inQuotes {
          escaped := true;
        }
      } else if c == QUOTE {
        inQuotes := !inQuotes;
        current := current + [c];
      } else if c == sep && !inQuotes {
        result := result + [TrimSpace(current)];
        TrimAllAppend(done, current);
        done := done + [current];
        current := "";
      } else {
        current := current + [c];
      }
    }
    assert s[..|s|] == s;
    if escaped {
      return Err(DanglingEscape);
    }
    if inQuotes {
      return Err(UnterminatedQuote);
    }
    TrimAllAppend(done, current);
    result := result + [TrimSpace(current)];
    r := Ok(result);
  }

  method UnescapeQuoted(s: string) returns (r: Result<string, QuoteError>)
    ensures r == Unescape(s)
  {
    var b := "";
    var escaped := false;
    for i := 0 to |s|
      invariant UnescapeScan(s[..i]) == (b, escaped)
    {
      var c := s[i];
      assert s[..i + 1][..i] == s[..i];
      if escaped {
        b := b + [c];
        escaped := false;
      } else if c == BACKSLASH {
        escaped := true;
      } else {
        b := b + [c];
      }
    }
    assert s[..|s|] == s;
    if escaped {
      return Err(DanglingEscapeInQuotedString);
    }
    r := Ok(b);
  }

  method UnquoteXfccValue(v: string) returns (r: Result<string, QuoteError>)
    ensures r == Unquote(v)
  {
    if |v| >= 2 && v[0] == QUOTE && v[|v| - 1] == QUOTE {
      r := UnescapeQuoted(v[1..|v| - 1]);
    } else {
      r := Ok(v);
    }
  }

  method ParseXfccFields(entry: string) returns (r: Result<map<string, string>, FieldError>)
    ensures r == ParseFields(entry)
  {
    var split := SplitOutsideQuotes(entry, ';');
    if split.Err? {
      var (k, _, found) := Cut(entry, '=');
      if found {
        var key := TrimSpace(k);
        if key != "" {
          return Err(InvalidValue(key, split.error));
        }
      }
      return Err(InvalidEntry(split.error));
    }
    var parts := split.value;
    var fields := map[];
    for i := 0 to |parts|
      invariant ParseParts(parts[..i]) == Ok(fields)
    {
      assert parts[..i + 1][..i] == parts[..i];
      var part := TrimSpace(parts[i]);
      if part != "" {
        var (k, v, found) := Cut(part, '=');
        if !found {
          PartsFailEarly(parts, i, MissingEquals(part));
          return Err(MissingEquals(part));
        }
        var key := TrimSpace(k);
        var value := TrimSpace(v);
        if key == "" {
          PartsFailEarly(parts, i, EmptyFieldName);
          return Err(EmptyFieldName);
        }
        var unquoted := UnquoteXfccValue(value);
        if unquoted.Err? {
          PartsFailEarly(parts, i, InvalidValue(key, unquoted.error));
          return Err(InvalidValue(key, unquoted.error));
        }
        fields := fields[key := unquoted.value];
      }
    }
    assert parts[..|parts|] == parts;
    r := Ok(fields);
  }

  /** A failing part decides the result whatever follows it. */
  lemma {:induction false} PartsFailEarly(parts: seq<string>, i: nat, e: FieldError)
    requires i < |parts| && ParseParts(parts[..i]).Ok? && ParsePart(parts[i]) == Err(e)
    ensures ParseParts(parts) == Err(e)
  {
    if i + 1 < |parts| {
      var front := parts[..|parts| - 1];
      assert front[..i] == parts[..i];
      PartsFailEarly(front, i, e);
    } else {
      assert parts[..|parts| - 1] == parts[..i];
    }
  }
}
