/** `read_file_with_label`: one file's lines to rows of values.
    `float(token)` is a parameter `parse` that gives `None` where Python
    raises `ValueError`. */
module Reader {
  import opened Common
  import opened Text

  /** The `ValueError` raised by `float`, with the token it rejected. */
  datatype ParseError = ParseError(token: string)

  /** What `read_file_with_label` returns: the rows and the label it was
      given. */
  datatype FileResult<V> = FileResult(rows: seq<seq<V>>, fileLabel: int)

  /** Every token converts. */
  predicate AllParse<V>(ts: seq<string>, parse: string -> Option<V>)
  {
    forall k :: 0 <= k < |ts| ==> parse(ts[k]).Some?
  }

  /** `list(map(float, tokens))`: the tokens converted left to right; the
      first one that does not convert raises. */
  function ParseTokens<V>(ts: seq<string>, parse: string -> Option<V>): (r: Result<seq<V>, ParseError>)
    ensures r.Success? <==> AllParse(ts, parse)
    ensures r.Success? ==> (|r.value| == |ts| &&
      forall k :: 0 <= k < |ts| ==> Some(r.value[k]) == parse(ts[k]))
    ensures r.Failure? ==> r.error.token in ts && parse(r.error.token).None?
  {
    if ts == [] then Success([])
    else match parse(ts[0])
      case None => Failure(ParseError(ts[0]))
      case Some(v) =>
        match ParseTokens(ts[1..], parse)
        case Failure(e) => Failure(e)
        case Success(vs) =>
          assert forall k :: 0 < k < |ts| ==> ts[k] == ts[1..][k - 1];
          Success([v] + vs)
  }

  /** The lines kept by `if line.strip()`, in order. */
  function NonBlank(lines: seq<string>): (r: seq<string>)
    ensures |r| <= |lines|
  {
    if lines == [] then []
    else if IsBlank(lines[0]) then NonBlank(lines[1..])
    else [lines[0]] + NonBlank(lines[1..])
  }

  /** Every token of every line of `nb` converts. */
  predicate AllLinesParse<V>(nb: seq<string>, parse: string -> Option<V>)
  {
    forall i :: 0 <= i < |nb| ==> AllParse(Tokens(nb[i]), parse)
  }

  /** The rows of the lines `nb`, each the line's tokens converted; the
      first token that does not convert, in line order, makes the whole
      read fail. */
  function ParseRows<V>(nb: seq<string>, parse: string -> Option<V>): (r: Result<seq<seq<V>>, ParseError>)
    ensures r.Success? <==> AllLinesParse(nb, parse)
    ensures r.Success? ==> (|r.value| == |nb| &&
      forall i :: 0 <= i < |nb| ==> ParseTokens(Tokens(nb[i]), parse) == Success(r.value[i]))
    ensures r.Failure? ==> (parse(r.error.token).None? &&
      exists i :: 0 <= i < |nb| && r.error.token in Tokens(nb[i]))
  {
    if nb == [] then Success([])
    else
      match ParseTokens(Tokens(nb[0]), parse)
      case Failure(e) => Failure(e)
      case Success(row) =>
        match ParseRows(nb[1..], parse)
        case Failure(e) =>
          var i :| 0 <= i < |nb[1..]| && e.token in Tokens(nb[1..][i]);
          assert nb[i + 1] == nb[1..][i];
          Failure(e)
        case Success(rows) =>
          assert forall i :: 0 < i < |nb| ==> nb[i] == nb[1..][i - 1];
          Success([row] + rows)
  }

  /** The comprehension of `read_file_with_label`: one row per line that is
      not blank, each row the line's tokens converted; the first token
      that does not convert, in file order, makes the whole read fail. */
  function ReadLines<V>(lines: seq<string>, parse: string -> Option<V>): (r: Result<seq<seq<V>>, ParseError>)
    ensures r.Success? <==> AllLinesParse(NonBlank(lines), parse)
    ensures r.Success? ==> (|r.value| == |NonBlank(lines)| &&
      forall i :: 0 <= i < |r.value| ==>
        ParseTokens(Tokens(NonBlank(lines)[i]), parse) == Success(r.value[i]))
    ensures r.Failure? ==> (parse(r.error.token).None? &&
      exists i :: 0 <= i < |NonBlank(lines)| && r.error.token in Tokens(NonBlank(lines)[i]))
  {
    ParseRows(NonBlank(lines), parse)
  }

  /** Every row has one value per token of its line, so none is empty. */
  lemma RowsMatchLines<V>(lines: seq<string>, parse: string -> Option<V>)
    requires ReadLines(lines, parse).Success?
    ensures forall i :: 0 <= i < |ReadLines(lines, parse).value| ==>
      |ReadLines(lines, parse).value[i]| == |Tokens(NonBlank(lines)[i])| > 0
  {
    var rows := ReadLines(lines, parse).value;
    var nb := NonBlank(lines);
    forall i | 0 <= i < |rows| ensures |rows[i]| == |Tokens(nb[i])| > 0 {
      NonBlankKept(lines, i);
      TokensEmptyIffBlank(nb[i]);
    }
  }

  lemma {:induction false} NonBlankKept(lines: seq<string>, i: nat)
    requires i < |NonBlank(lines)|
    ensures !IsBlank(NonBlank(lines)[i]) && NonBlank(lines)[i] in lines
  {
    if !IsBlank(lines[0]) && i == 0 {
    } else if !IsBlank(lines[0]) {
      NonBlankKept(lines[1..], i - 1);
    } else {
      NonBlankKept(lines[1..], i);
    }
  }

  /** The filter works line by line: filtering a file read in two parts
      is filtering each part. */
  lemma {:induction false} NonBlankAppend(a: seq<string>, b: seq<string>)
    ensures NonBlank(a + b) == NonBlank(a) + NonBlank(b)
  {
    if a == [] {
      assert a + b == b;
    } else {
      assert (a + b)[0] == a[0];
      assert (a + b)[1..] == a[1..] + b;
      NonBlankAppend(a[1..], b);
    }
  }

  /** One line is kept exactly when it is not whitespace only. With
      `NonBlankAppend` this fixes the filter: every non-blank line is kept,
      once, in file order, and nothing else. */
  lemma NonBlankLine(l: string)
    ensures NonBlank([l]) == if IsBlank(l) then [] else [l]
  {
    assert [l][1..] == [];
  }

  /** A line that is not whitespace only is kept. */
  lemma {:induction false} NonBlankComplete(lines: seq<string>, i: nat)
    requires i < |lines| && !IsBlank(lines[i])
    ensures lines[i] in NonBlank(lines)
  {
    assert lines == lines[..i] + [lines[i]] + lines[i + 1..];
    NonBlankAppend(lines[..i] + [lines[i]], lines[i + 1..]);
    NonBlankAppend(lines[..i], [lines[i]]);
    NonBlankLine(lines[i]);
  }

  /** `read_file_with_label(file_path, label)` on the lines of the file. */
  function ReadFileWithLabel<V>(lines: seq<string>, fileLabel: int, parse: string -> Option<V>)
    : (r: Result<FileResult<V>, ParseError>)
    ensures r.Success? <==> ReadLines(lines, parse).Success?
    ensures r.Success? ==> r.value.rows == ReadLines(lines, parse).value && r.value.fileLabel == fileLabel
  {
    match ReadLines(lines, parse)
    case Failure(e) => Failure(e)
    case Success(rows) => Success(FileResult(rows, fileLabel))
  }
}
