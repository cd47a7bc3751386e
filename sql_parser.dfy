/**
 * The query parser of src/sqlParser.ts: a fixed-position tokenizer that
 * turns a query into a SELECT or INSERT command.
 */
module SqlParser {
  import opened Wrappers
  import opened Seqs
  import opened Records

  /**
   * A parsed command. The tag plays the part of `SQLCommandType`; a token the
   * query does not have leaves `tableName` as `None` ("undefined").
   */
  datatype Command =
    | Select(tableName: Option<string>, fields: Option<seq<string>>)
    | Insert(tableName: Option<string>, values: Record)

  /** The characters matched by the regular-expression class `\s`. */
  predicate IsWhitespace(c: char)
  {
    c in {' ', '\t', '\n', '\r', '\U{000B}', '\U{000C}', '\U{00A0}', '\U{1680}', '\U{2028}', '\U{2029}',
          '\U{202F}', '\U{205F}', '\U{3000}', '\U{FEFF}'}
    || ('\U{2000}' <= c <= '\U{200A}')
  }

  /** No character of `t` is whitespace. */
  predicate NoWhitespace(t: string)
  {
    forall k :: 0 <= k < |t| ==> !IsWhitespace(t[k])
  }

  /** The first position at or after `i` whose character is not of the given whitespace-ness. */
  function Skip(q: string, i: nat, whitespace: bool): (j: nat)
    requires i <= |q|
    ensures i <= j <= |q|
    ensures forall k :: i <= k < j ==> IsWhitespace(q[k]) == whitespace
    ensures j < |q| ==> IsWhitespace(q[j]) != whitespace
    decreases |q| - i
  {
    if i == |q| || IsWhitespace(q[i]) != whitespace then i else Skip(q, i + 1, whitespace)
  }

  /**
   * `query.split(/\s+/)`: the pieces between maximal runs of whitespace. A
   * query that starts or ends with whitespace yields an empty first or last
   * token, and the empty query yields one empty token.
   */
  function Tokens(q: string): (ts: seq<string>)
    ensures |ts| >= 1
    ensures forall i :: 0 <= i < |ts| ==> NoWhitespace(ts[i])
    decreases |q|
  {
    var i := Skip(q, 0, false);
    if i == |q| then [q]
    else [q[..i]] + Tokens(q[Skip(q, i, true)..])
  }

  /** Each whitespace run of `q` replaced by one space; `afterSpace` says a run is already open. */
  function Squeeze(q: string, afterSpace: bool): string
  {
    if q == [] then []
    else if IsWhitespace(q[0]) then (if afterSpace then [] else [' ']) + Squeeze(q[1..], true)
    else [q[0]] + Squeeze(q[1..], false)
  }

  lemma {:induction false} SqueezeNoWhitespace(t: string, rest: string, afterSpace: bool)
    requires NoWhitespace(t) && (!afterSpace || t != [] || rest == [] || !IsWhitespace(rest[0]))
    ensures Squeeze(t + rest, afterSpace) == t + Squeeze(rest, false)
  {
    if t == [] {
      assert t + rest == rest;
    } else {
      assert (t + rest)[1..] == t[1..] + rest;
      SqueezeNoWhitespace(t[1..], rest, false);
    }
  }

  lemma {:induction false} SqueezeRun(q: string, i: nat, j: nat, afterSpace: bool)
    requires i <= j <= |q|
    requires forall k :: i <= k < j ==> IsWhitespace(q[k])
    requires afterSpace || i < j
    ensures Squeeze(q[i..], afterSpace) == (if afterSpace then [] else [' ']) + Squeeze(q[j..], true)
    decreases j - i
  {
    if i < j {
      assert q[i..][1..] == q[i + 1..];
      SqueezeRun(q, i + 1, j, true);
    }
  }

  /**
   * The tokens joined by single spaces give the query with every run of
   * whitespace collapsed to one space: splitting loses nothing but the run
   * lengths and kinds.
   */
  lemma {:induction false} TokensJoin(q: string)
    ensures Join(Tokens(q), ' ') == Squeeze(q, false)
    decreases |q|
  {
    var i := Skip(q, 0, false);
    if i == |q| {
      assert q[..i] == q && q + [] == q;
      SqueezeNoWhitespace(q, [], false);
    } else {
      var j := Skip(q, i, true);
      var head, rest := q[..i], q[j..];
      assert NoWhitespace(head);
      assert q == head + q[i..];
      TokensJoin(rest);
      SqueezeNoWhitespace(head, q[i..], false);
      SqueezeRun(q, i, j, false);
      SqueezeAfterRun(rest);
      TokensSplit(q, i, j);
    }
  }

  /** A piece that does not start with whitespace squeezes alike whether or not a run is open. */
  lemma SqueezeAfterRun(rest: string)
    requires rest == [] || !IsWhitespace(rest[0])
    ensures Squeeze(rest, true) == Squeeze(rest, false)
  {
  }

  /** The join of the tokens of a query that has whitespace, one step unfolded. */
  lemma TokensSplit(q: string, i: nat, j: nat)
    requires i == Skip(q, 0, false) && i < |q| && j == Skip(q, i, true)
    ensures Join(Tokens(q), ' ') == q[..i] + [' '] + Join(Tokens(q[j..]), ' ')
  {
    var ts := Tokens(q);
    assert ts == [q[..i]] + Tokens(q[j..]);
    assert |ts| > 1 && ts[0] == q[..i] && ts[1..] == Tokens(q[j..]);
  }

  /** `c.toUpperCase()` on the ASCII letters. */
  function UpperChar(c: char): char
  {
    if 'a' <= c <= 'z' then (c as int - 32) as char else c
  }

  /** `s.toUpperCase()`, character by character. */
  function ToUpper(s: string): (r: string)
    ensures |r| == |s|
    ensures forall i :: 0 <= i < |s| ==> r[i] == UpperChar(s[i])
  {
    if s == [] then [] else [UpperChar(s[0])] + ToUpper(s[1..])
  }

  /** The lower-case letter of an upper-case ASCII letter. */
  function LowerChar(c: char): char
    requires 'A' <= c <= 'Z'
  {
    (c as int + 32) as char
  }

  /**
   * A token upper-cases to an all-capitals keyword exactly when it spells that
   * keyword with each letter in either case: "select", "SELECT" and "SeLeCt"
   * are the same keyword.
   */
  lemma KeywordIgnoresCase(t: string, keyword: string)
    requires forall i :: 0 <= i < |keyword| ==> 'A' <= keyword[i] <= 'Z'
    ensures ToUpper(t) == keyword <==>
      |t| == |keyword| && forall i :: 0 <= i < |t| ==> t[i] == keyword[i] || t[i] == LowerChar(keyword[i])
  {
    var u := ToUpper(t);
    if |t| == |keyword| {
      forall i | 0 <= i < |t| ensures u[i] == keyword[i] <==> t[i] == keyword[i] || t[i] == LowerChar(keyword[i]) {
        UpperCharOf(t[i], keyword[i]);
      }
    }
  }

  /** The characters that upper-case to a capital letter are that letter and its lower case. */
  lemma UpperCharOf(c: char, capital: char)
    requires 'A' <= capital <= 'Z'
    ensures UpperChar(c) == capital <==> c == capital || c == LowerChar(capital)
  {
  }

  /** The token at position `i`, or `None` when the query has fewer tokens ("undefined"). */
  function TokenAt(ts: seq<string>, i: nat): Option<string>
  {
    if i < |ts| then Some(ts[i]) else None
  }

  /** The upper-cased first token, which selects the command. */
  function Keyword(query: string): string
  {
    ToUpper(Tokens(query)[0])
  }

  /**
   * `SQLParser.parse`. A SELECT without a second token fails as the source
   * does when it calls `split` on "undefined".
   */
  function Parse(query: string): (r: Result<Command>)
    ensures r.Ok? && r.value.Select? ==> Keyword(query) == "SELECT"
    ensures r.Ok? && r.value.Insert? ==> Keyword(query) == "INSERT" && r.value.values == map[]
    ensures r.Err? ==> r.error == UndefinedToken(1) || r.error == UnsupportedCommand(Keyword(query))
  {
    var ts := Tokens(query);
    var keyword := ToUpper(ts[0]);
    if keyword == "SELECT" then
      if |ts| < 2 then Err(UndefinedToken(1))
      else Ok(Select(TokenAt(ts, 3), if ts[1] != "*" then Some(SplitOn(ts[1], ',')) else None))
    else if keyword == "INSERT" then
      Ok(Insert(TokenAt(ts, 2), map[]))
    else
      Err(UnsupportedCommand(keyword))
  }

  /**
   * A SELECT yields a SELECT command on the fourth token; its field list is
   * absent exactly for `*`, and otherwise is the second token cut at commas:
   * no field holds a comma and joining them with commas gives the token back.
   */
  lemma ParseSelect(query: string)
    requires Keyword(query) == "SELECT" && |Tokens(query)| >= 2
    ensures Parse(query).Ok? && Parse(query).value.Select?
    ensures Parse(query).value.tableName == TokenAt(Tokens(query), 3)
    ensures Parse(query).value.fields.None? <==> Tokens(query)[1] == "*"
    ensures Parse(query).value.fields.Some? ==>
      var fs := Parse(query).value.fields.value;
      |fs| >= 1 && (forall i :: 0 <= i < |fs| ==> Free(fs[i], ',')) && Join(fs, ',') == Tokens(query)[1]
  {
    JoinSplitOn(Tokens(query)[1], ',');
  }

  /** An INSERT yields an INSERT command on the third token with no values, whatever follows. */
  lemma ParseInsert(query: string)
    requires Keyword(query) == "INSERT"
    ensures Parse(query) == Ok(Insert(TokenAt(Tokens(query), 2), map[]))
  {
  }

  /** Every other keyword is rejected as unsupported, and a bare SELECT fails on its missing token. */
  lemma ParseRejects(query: string)
    ensures Parse(query).Err? <==>
      (Keyword(query) != "SELECT" && Keyword(query) != "INSERT") || (Keyword(query) == "SELECT" && |Tokens(query)| < 2)
    ensures Keyword(query) != "SELECT" && Keyword(query) != "INSERT" ==>
      Parse(query) == Err(UnsupportedCommand(Keyword(query)))
  {
  }

  /** Two queries whose tokens differ only in the case of the keyword parse alike. */
  lemma ParseIgnoresKeywordCase(q1: string, q2: string)
    requires Keyword(q1) == Keyword(q2) && Tokens(q1)[1..] == Tokens(q2)[1..]
    ensures Parse(q1) == Parse(q2)
  {
    var t1, t2 := Tokens(q1), Tokens(q2);
    assert |t1| == |t2| by { assert |t1[1..]| == |t2[1..]|; }
    assert forall i :: 1 <= i < |t1| ==> t1[i] == t2[i] by {
      forall i | 1 <= i < |t1| ensures t1[i] == t2[i] { assert t1[i] == t1[1..][i - 1]; }
    }
  }
}
