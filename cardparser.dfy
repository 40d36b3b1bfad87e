/**
 * The card-submission parser of the add-card flow: the first line of the
 * message is the card name; every later line gives a category (its first
 * token) and a cashback (its second token read by `float()`); the pairs are
 * gathered in a dict, so a repeated category keeps the later value.
 */
module CardParser {
  import opened Wrappers
  import opened PyText

  /**
   * A Python dict from category to cashback, as its items in iteration
   * order: a key keeps the position of its first insertion.
   */
  type Cashbacks = seq<(string, real)>

  /** The two exceptions the handler catches. */
  datatype ParseError = IndexError | ValueError

  datatype Submission = Submission(name: string, cashbacks: Cashbacks)

  predicate UniqueKeys(d: Cashbacks)
  {
    forall i, j :: 0 <= i < j < |d| ==> d[i].0 != d[j].0
  }

  function KeySet(d: Cashbacks): set<string>
  {
    set i | 0 <= i < |d| :: d[i].0
  }

  /** `d.get(k)`. */
  function Lookup(d: Cashbacks, k: string): (r: Option<real>)
    ensures r.Some? <==> k in KeySet(d)
    ensures UniqueKeys(d) ==> forall i :: 0 <= i < |d| && d[i].0 == k ==> r == Some(d[i].1)
  {
    if d == [] then None
    else if d[0].0 == k then Some(d[0].1)
    else
      var r := Lookup(d[1..], k);
      assert KeySet(d) == {d[0].0} + KeySet(d[1..]) by {
        forall x | x in KeySet(d) ensures x in {d[0].0} + KeySet(d[1..]) {
          var i :| 0 <= i < |d| && d[i].0 == x;
          if i > 0 { assert d[1..][i - 1].0 == x; }
        }
      }
      r
  }

  /** `d[k] = v`: overwrite in place when present, otherwise append. */
  function Put(d: Cashbacks, k: string, v: real): (d': Cashbacks)
    ensures k in KeySet(d) ==> |d'| == |d| && forall i :: 0 <= i < |d| ==> d'[i].0 == d[i].0
    ensures k !in KeySet(d) ==> d' == d + [(k, v)]
    ensures forall i :: 0 <= i < |d| && d[i].0 != k ==> d'[i] == d[i]
    ensures forall i :: 0 <= i < |d'| && d'[i].0 == k ==> d'[i].1 == v
    ensures KeySet(d') == KeySet(d) + {k}
    ensures UniqueKeys(d) ==> UniqueKeys(d')
  {
    if k in KeySet(d) then
      var d' := seq(|d|, i requires 0 <= i < |d| => if d[i].0 == k then (k, v) else d[i]);
      assert KeySet(d') == KeySet(d) + {k} by {
        var i :| 0 <= i < |d| && d[i].0 == k;
        assert d'[i].0 == k;
        forall x | x in KeySet(d) ensures x in KeySet(d') {
          var j :| 0 <= j < |d| && d[j].0 == x;
          assert d'[j].0 == x;
        }
      }
      d'
    else
      assert KeySet(d + [(k, v)]) == KeySet(d) + {k} by {
        assert (d + [(k, v)])[|d|].0 == k;
        forall x | x in KeySet(d) ensures x in KeySet(d + [(k, v)]) {
          var j :| 0 <= j < |d| && d[j].0 == x;
          assert (d + [(k, v)])[j].0 == x;
        }
      }
      d + [(k, v)]
  }

  /** The dict comprehension's store step applied to every pair in order. */
  function DictFrom(pairs: seq<(string, real)>): (d: Cashbacks)
    ensures UniqueKeys(d)
    ensures KeySet(d) == set i | 0 <= i < |pairs| :: pairs[i].0
    ensures |d| <= |pairs|
    decreases |pairs|
  {
    if pairs == [] then []
    else
      var n := |pairs| - 1;
      var prev := DictFrom(pairs[..n]);
      var keys := set i | 0 <= i < |pairs| :: pairs[i].0;
      assert keys == (set i | 0 <= i < n :: pairs[..n][i].0) + {pairs[n].0} by {
        forall x | x in keys ensures x in (set i | 0 <= i < n :: pairs[..n][i].0) + {pairs[n].0} {
          var i :| 0 <= i < |pairs| && pairs[i].0 == x;
          if i < n { assert pairs[..n][i].0 == x; }
        }
      }
      Put(prev, pairs[n].0, pairs[n].1)
  }

  /** The last pair with a given key decides that key's value. */
  lemma {:induction false} DictFromLastWins(pairs: seq<(string, real)>, i: nat)
    requires i < |pairs|
    requires forall j :: i < j < |pairs| ==> pairs[j].0 != pairs[i].0
    ensures Lookup(DictFrom(pairs), pairs[i].0) == Some(pairs[i].1)
    decreases |pairs|
  {
    var n := |pairs| - 1;
    var prev := DictFrom(pairs[..n]);
    var k := pairs[i].0;
    var d := Put(prev, pairs[n].0, pairs[n].1);
    assert DictFrom(pairs) == d;
    var m: nat;
    if i == n {
      assert k in KeySet(d);
      m :| m < |d| && d[m].0 == k;
    } else {
      assert pairs[..n][i] == pairs[i];
      assert forall j :: i < j < n ==> pairs[..n][j] == pairs[j];
      DictFromLastWins(pairs[..n], i);
      assert k in KeySet(prev);
      m :| m < |prev| && prev[m].0 == k;
      assert prev[m].1 == pairs[i].1;
      assert d[m] == prev[m];
    }
    LookupAt(d, m);
  }

  /** In a dict with unique keys, the entry at position `m` is what its key looks up. */
  lemma LookupAt(d: Cashbacks, m: nat)
    requires UniqueKeys(d) && m < |d|
    ensures Lookup(d, d[m].0) == Some(d[m].1)
  {
  }

  /** One later line: key `split()[0]`, then value `float(split()[1])`. */
  function ParseLine(line: string): (r: Result<(string, real), ParseError>)
    ensures r.Success? <==> |Words(line)| >= 2 && ParseNumber(Words(line)[1]).Some?
    ensures r.Failure? && |Words(line)| >= 2 ==> r.error == ValueError
    ensures r.Failure? && |Words(line)| < 2 ==> r.error == IndexError
    ensures r.Success? ==> r.value.0 == Words(line)[0] && ParseNumber(Words(line)[1]) == Some(r.value.1)
  {
    var ws := Words(line);
    if |ws| < 1 then Failure(IndexError)
    else
      var key := ws[0];
      if |ws| < 2 then Failure(IndexError)
      else match ParseNumber(ws[1])
        case None => Failure(ValueError)
        case Some(v) => Success((key, v))
  }

  /** Tokens after the second one play no part. */
  lemma ExtraTokensIgnored(line: string, c: char, rest: string)
    requires |Words(line)| >= 2
    requires IsSpace(c)
    ensures ParseLine(line + [c] + rest) == ParseLine(line)
  {
    WordsAroundSpace(line, c, rest);
  }

  /** The line `category cashback` for a category token and an accepted number. */
  lemma ParseLineOfPair(category: string, number: string)
    requires IsWord(category)
    requires ParseNumber(number).Some?
    ensures ParseLine(category + " " + number) == Success((category, ParseNumber(number).value))
  {
    NumberIsWord(number);
    WordsAroundSpace(category, ' ', number);
    WordsOfWord(category);
    WordsOfWord(number);
  }

  /**
   * Evaluates the lines in order and stops at the first one that raises:
   * all pairs, or the first line's exception.
   */
  function ParseEntries(lines: seq<string>): (r: Result<seq<(string, real)>, ParseError>)
    ensures r.Success? ==> |r.value| == |lines|
    ensures r.Success? ==> forall i :: 0 <= i < |lines| ==> ParseLine(lines[i]) == Success(r.value[i])
    ensures r.Failure? <==> exists i :: 0 <= i < |lines| && ParseLine(lines[i]).Failure?
    ensures r.Failure? ==>
      exists i :: (0 <= i < |lines| && ParseLine(lines[i]) == Failure(r.error)
                   && forall j :: 0 <= j < i ==> ParseLine(lines[j]).Success?)
    decreases |lines|
  {
    if lines == [] then Success([])
    else match ParseLine(lines[0])
      case Failure(e) => Failure(e)
      case Success(kv) =>
        match ParseEntries(lines[1..])
        case Failure(e) =>
          assert forall j :: 1 <= j < |lines| ==> lines[j] == lines[1..][j - 1];
          Failure(e)
        case Success(rest) =>
          assert forall j :: 1 <= j < |lines| ==> lines[j] == lines[1..][j - 1];
          Success([kv] + rest)
  }

  /**
   * The parse of a whole message: `lines = text.split('\n')`, the name is
   * `lines[0]`, and the dict is built from `lines[1:]` before anything is
   * stored.
   */
  function ParseSubmission(text: string): (r: Result<Submission, ParseError>)
    ensures r.Success? ==> r.value.name <= text && '\n' !in r.value.name
    ensures r.Success? ==> UniqueKeys(r.value.cashbacks)
  {
    var lines := SplitLines(text);
    match ParseEntries(lines[1..])
    case Failure(e) => Failure(e)
    case Success(pairs) => Success(Submission(lines[0], DictFrom(pairs)))
  }

  /** A later line is well formed when it has two tokens and the second is a number. */
  predicate WellFormedLine(line: string)
  {
    |Words(line)| >= 2 && ParseNumber(Words(line)[1]).Some?
  }

  /** A submission fails exactly when one of its later lines is malformed. */
  lemma FormatErrorIff(text: string)
    ensures ParseSubmission(text).Failure? <==>
      exists i :: 1 <= i < |SplitLines(text)| && !WellFormedLine(SplitLines(text)[i])
  {
    var lines := SplitLines(text);
    if ParseSubmission(text).Failure? {
      var i :| 0 <= i < |lines| - 1 && ParseLine(lines[1..][i]).Failure?;
      assert lines[1..][i] == lines[i + 1];
    } else {
      forall i | 1 <= i < |lines| ensures WellFormedLine(lines[i]) {
        assert lines[i] == lines[1..][i - 1];
      }
    }
  }

  /** `line.split()[0]`, the category a later line names (`""` when it has no token). */
  function Category(line: string): string
  {
    var ws := Words(line);
    if ws == [] then "" else ws[0]
  }

  /** On success the name is the first line and the categories are those of the later lines. */
  lemma SubmissionContents(text: string)
    requires ParseSubmission(text).Success?
    ensures ParseSubmission(text).value.name == SplitLines(text)[0]
    ensures UniqueKeys(ParseSubmission(text).value.cashbacks)
    ensures forall k :: k in KeySet(ParseSubmission(text).value.cashbacks) <==>
      exists i :: 1 <= i < |SplitLines(text)| && Category(SplitLines(text)[i]) == k
  {
    var lines := SplitLines(text);
    var pairs := ParseEntries(lines[1..]).value;
    var d := ParseSubmission(text).value.cashbacks;
    assert d == DictFrom(pairs);
    forall i | 1 <= i < |lines| ensures Category(lines[i]) == pairs[i - 1].0 {
      assert lines[1..][i - 1] == lines[i];
    }
    forall k ensures k in KeySet(d) <==> exists i :: 1 <= i < |lines| && Category(lines[i]) == k {
      if k in KeySet(d) {
        var i :| 0 <= i < |pairs| && pairs[i].0 == k;
        assert Category(lines[i + 1]) == k;
      }
      if exists i :: 1 <= i < |lines| && Category(lines[i]) == k {
        var i :| 1 <= i < |lines| && Category(lines[i]) == k;
        assert pairs[i - 1].0 == k;
      }
    }
  }

  /**
   * A category given on several lines ends up once, with the cashback of
   * its last line.
   */
  lemma LaterLineWins(text: string, i: nat)
    requires ParseSubmission(text).Success?
    requires 1 <= i < |SplitLines(text)|
    requires forall j :: i < j < |SplitLines(text)| ==> Category(SplitLines(text)[j]) != Category(SplitLines(text)[i])
    ensures |Words(SplitLines(text)[i])| >= 2
    ensures Lookup(ParseSubmission(text).value.cashbacks, Category(SplitLines(text)[i]))
      == ParseNumber(Words(SplitLines(text)[i])[1])
  {
    SubmissionOfEntries(text);
    LinesLastWins(SplitLines(text), i);
  }

  /** `LaterLineWins` for the lines of the message, apart from how they were split. */
  lemma LinesLastWins(lines: seq<string>, i: nat)
    requires 1 <= i < |lines|
    requires ParseEntries(lines[1..]).Success?
    requires forall j :: i < j < |lines| ==> Category(lines[j]) != Category(lines[i])
    ensures |Words(lines[i])| >= 2
    ensures Lookup(DictFrom(ParseEntries(lines[1..]).value), Category(lines[i])) == ParseNumber(Words(lines[i])[1])
  {
    LaterLinesDistinct(lines, i);
    EntriesLastWins(lines[1..], i - 1);
  }

  /** A successful parse is the first line and the dict of the later lines' pairs. */
  lemma SubmissionOfEntries(text: string)
    requires ParseSubmission(text).Success?
    ensures ParseEntries(SplitLines(text)[1..]).Success?
    ensures ParseSubmission(text).value
      == Submission(SplitLines(text)[0], DictFrom(ParseEntries(SplitLines(text)[1..]).value))
  {
  }

  /** The distinctness of a later line's category, seen from `lines[1..]`. */
  lemma LaterLinesDistinct(lines: seq<string>, i: nat)
    requires 1 <= i < |lines|
    requires forall j :: i < j < |lines| ==> Category(lines[j]) != Category(lines[i])
    ensures lines[1..][i - 1] == lines[i]
    ensures forall j :: i - 1 < j < |lines[1..]| ==> Category(lines[1..][j]) != Category(lines[1..][i - 1])
  {
    forall j | i - 1 < j < |lines[1..]| ensures Category(lines[1..][j]) != Category(lines[1..][i - 1]) {
      assert lines[1..][j] == lines[j + 1];
    }
  }

  /** `LaterLineWins` for the list of later lines itself. */
  lemma EntriesLastWins(lines: seq<string>, i: nat)
    requires i < |lines|
    requires ParseEntries(lines).Success?
    requires forall j :: i < j < |lines| ==> Category(lines[j]) != Category(lines[i])
    ensures |Words(lines[i])| >= 2
    ensures Lookup(DictFrom(ParseEntries(lines).value), Category(lines[i])) == ParseNumber(Words(lines[i])[1])
  {
    var pairs := ParseEntries(lines).value;
    EntryOfLine(lines, pairs, i);
    forall j | i < j < |pairs| ensures pairs[j].0 != pairs[i].0 {
      EntryOfLine(lines, pairs, j);
    }
    DictFromLastWins(pairs, i);
  }

  /** The pair the comprehension builds from a later line: its category and its number. */
  lemma EntryOfLine(lines: seq<string>, pairs: seq<(string, real)>, j: nat)
    requires ParseEntries(lines) == Success(pairs)
    requires j < |lines|
    ensures j < |pairs| && |Words(lines[j])| >= 2
    ensures pairs[j].0 == Category(lines[j])
    ensures ParseNumber(Words(lines[j])[1]) == Some(pairs[j].1)
  {
    assert ParseLine(lines[j]) == Success(pairs[j]);
  }

  /** A message without a newline is a name alone: no categories and no error. */
  lemma SingleLine(text: string)
    requires '\n' !in text
    ensures ParseSubmission(text) == Success(Submission(text, []))
  {
    NewlineIndexOfLine(text, "");
    assert text + "" == text;
  }

  /**
   * Writing a name and `category number` lines and parsing the message
   * gives back the name and the dict of those pairs.
   */
  lemma {:induction false} ParseRendered(name: string, categories: seq<string>, numbers: seq<string>)
    requires '\n' !in name
    requires |categories| == |numbers|
    requires forall i :: 0 <= i < |categories| ==> IsWord(categories[i]) && '\n' !in categories[i]
    requires forall i :: 0 <= i < |numbers| ==> ParseNumber(numbers[i]).Some?
    ensures ParseSubmission(JoinLines([name] + PairLines(categories, numbers)))
      == Success(Submission(name, DictFrom(seq(|categories|, i requires 0 <= i < |categories| =>
           (categories[i], ParseNumber(numbers[i]).value)))))
  {
    var lines := PairLines(categories, numbers);
    forall i | 0 <= i < |lines| ensures '\n' !in lines[i] && ParseLine(lines[i]) == Success((categories[i], ParseNumber(numbers[i]).value)) {
      ParseLineOfPair(categories[i], numbers[i]);
      NumberIsWord(numbers[i]);
      assert numbers[i] != [] && NumberText(numbers[i]);
      assert '\n' !in numbers[i];
    }
    var all := [name] + lines;
    forall i | 0 <= i < |all| ensures '\n' !in all[i] {
      if i > 0 { assert all[i] == lines[i - 1]; }
    }
    SplitJoinLines(all);
    assert all[1..] == lines;
    var pairs := seq(|categories|, i requires 0 <= i < |categories| => (categories[i], ParseNumber(numbers[i]).value));
    ParseEntriesAllSucceed(lines, pairs);
  }

  /** The lines `categories[i] + " " + numbers[i]`. */
  function PairLines(categories: seq<string>, numbers: seq<string>): (lines: seq<string>)
    requires |categories| == |numbers|
    ensures |lines| == |categories|
    ensures forall i :: 0 <= i < |lines| ==> lines[i] == categories[i] + " " + numbers[i]
  {
    seq(|categories|, i requires 0 <= i < |categories| => categories[i] + " " + numbers[i])
  }

  lemma ParseEntriesAllSucceed(lines: seq<string>, pairs: seq<(string, real)>)
    requires |lines| == |pairs|
    requires forall i :: 0 <= i < |lines| ==> ParseLine(lines[i]) == Success(pairs[i])
    ensures ParseEntries(lines) == Success(pairs)
  {
    var r := ParseEntries(lines);
    assert r.Success?;
    assert forall i :: 0 <= i < |lines| ==> ParseLine(lines[i]) == Success(r.value[i]);
    assert r.value == pairs;
  }
}
