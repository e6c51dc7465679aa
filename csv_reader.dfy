/**
 * `read_csv_with_fallback`: the CSV file is parsed with each encoding of a
 * fixed priority list in turn; the first parse that raises nothing is
 * returned, and when every parse raises, a `RuntimeError` is raised.
 */
module CsvReader {
  import opened Results

  datatype Encoding = Utf8 | Utf8Sig | Latin1 | Cp1251

  /** The priority order of the fallback loop. */
  const FallbackEncodings: seq<Encoding> := [Utf8, Utf8Sig, Latin1, Cp1251]

  /** A parsed CSV file: the header row and the data rows, as pandas produced them. */
  datatype Table = Table(columns: seq<string>, rows: seq<seq<string>>)

  /** Exceptions `pd.read_csv` may raise; the loop treats every kind alike. */
  datatype Exception =
    | UnicodeDecodeError
    | ParserError
    | EmptyDataError
    | FileNotFoundError
    | OtherException(name: string)

  /** One call of `pd.read_csv(path, encoding=enc)`. */
  datatype Attempt = Parsed(table: Table) | Raised(exception: Exception)

  /** The CSV library on one fixed file: what parsing it with each encoding gives. */
  type Reader = Encoding -> Attempt

  /** The exception raised once every encoding has failed. */
  datatype ReadError = RuntimeError

  /** Position in `encs` of the first encoding whose parse succeeds, or `|encs|` if none does. */
  function FirstParsed(read: Reader, encs: seq<Encoding>): (k: nat)
    ensures k <= |encs|
    ensures forall j :: 0 <= j < k ==> read(encs[j]).Raised?
    ensures k < |encs| ==> read(encs[k]).Parsed?
  {
    if encs == [] then 0
    else if read(encs[0]).Parsed? then 0
    else 1 + FirstParsed(read, encs[1..])
  }

  /** No encoding succeeding means every encoding raised, and conversely. */
  lemma {:induction false} NoneParsedIffAllRaise(read: Reader, encs: seq<Encoding>)
    ensures FirstParsed(read, encs) == |encs| <==> forall e :: e in encs ==> read(e).Raised?
  {
    if encs != [] {
      NoneParsedIffAllRaise(read, encs[1..]);
      assert forall e :: e in encs <==> e == encs[0] || e in encs[1..];
    }
  }

  /** An encoding that parses after every earlier one raised is the one selected. */
  lemma {:induction false} FirstParsedAt(read: Reader, encs: seq<Encoding>, i: nat)
    requires i < |encs|
    requires forall j :: 0 <= j < i ==> read(encs[j]).Raised?
    requires read(encs[i]).Parsed?
    ensures FirstParsed(read, encs) == i
  {
    if i > 0 {
      assert read(encs[0]).Raised?;
      FirstParsedAt(read, encs[1..], i - 1);
    }
  }

  /**
   * The fallback loop. `attempts` lists the encodings handed to the reader,
   * in order: every one but the last raised, and nothing after the first
   * success is tried.
   */
  method ReadCsvWithFallback(read: Reader) returns (r: Result<Table, ReadError>, attempts: seq<Encoding>)
    ensures |attempts| <= |FallbackEncodings| && attempts == FallbackEncodings[..|attempts|]
    ensures forall j :: 0 <= j < |attempts| - 1 ==> read(attempts[j]).Raised?
    ensures r.Success? ==> attempts != [] && read(attempts[|attempts| - 1]) == Parsed(r.value)
    ensures r.Success? <==> FirstParsed(read, FallbackEncodings) < |FallbackEncodings|
    ensures r.Success? ==> |attempts| == FirstParsed(read, FallbackEncodings) + 1
    ensures r.Failure? <==> forall e :: e in FallbackEncodings ==> read(e).Raised?
    ensures r.Failure? ==> attempts == FallbackEncodings && r.error == RuntimeError
  {
    attempts := [];
    for i := 0 to |FallbackEncodings|
      invariant attempts == FallbackEncodings[..i]
      invariant forall j :: 0 <= j < i ==> read(FallbackEncodings[j]).Raised?
    {
      var enc := FallbackEncodings[i];
      attempts := attempts + [enc];
      var attempt := read(enc);
      if attempt.Parsed? {
        FirstParsedAt(read, FallbackEncodings, i);
        NoneParsedIffAllRaise(read, FallbackEncodings);
        return Success(attempt.table), attempts;
      }
    }
    NoneParsedIffAllRaise(read, FallbackEncodings);
    r := Failure(RuntimeError);
  }
}
