/**
 * The account record (`Account` in src/models.rs) and its one-line text
 * encoding `id,opening,current` (src/service.rs, `impl Account`).
 */
module AccountRecord {
  import opened Wrappers
  import opened Strings

  /**
   * An account: its identifier, the balance it was opened with (kept for the
   * record only) and the balance it holds now, both `u32`.
   */
  datatype Account = Account(id: string, openingBalance: UInt32, currentBalance: UInt32)

  /** `Account::new`: a fresh account holds exactly what it was opened with. */
  function NewAccount(id: string, openingBalance: UInt32): (a: Account)
    ensures a.id == id
    ensures a.openingBalance == openingBalance && a.currentBalance == openingBalance
  {
    Account(id, openingBalance, openingBalance)
  }

  /**
   * `to_csv`: the fields joined by commas, balances in decimal. The id is
   * written as it is, so the line is a single line exactly when the id is.
   */
  function ToCsv(a: Account): (line: string)
    ensures '\n' in line <==> '\n' in a.id
  {
    var opening, current := DecimalOf(a.openingBalance), DecimalOf(a.currentBalance);
    assert '\n' !in opening && '\n' !in current by {
      assert !IsDigit('\n');
    }
    a.id + "," + opening + "," + current
  }

  /**
   * `from_csv`: the first three comma-separated fields are the id and the two
   * balances; fields after the third are ignored. `None` when there are fewer
   * than three fields or a balance is not a `u32`. A decoded id never holds a
   * comma.
   */
  function FromCsv(line: string): (r: Option<Account>)
    ensures r.Some? ==> ',' !in r.value.id
  {
    var fields := Split(line, ',');
    if |fields| < 3 then None
    else
      match ParseUInt32(fields[1])
      case None => None
      case Some(opening) =>
        match ParseUInt32(fields[2])
        case None => None
        case Some(current) => Some(Account(fields[0], opening, current))
  }

  /**
   * The comma-separated fields of an encoded line: the pieces of the id,
   * then the two balances (whose digits hold no comma).
   */
  lemma CsvFields(a: Account)
    ensures Split(ToCsv(a), ',') == Split(a.id, ',') + [DecimalOf(a.openingBalance), DecimalOf(a.currentBalance)]
  {
    var opening, current := DecimalOf(a.openingBalance), DecimalOf(a.currentBalance);
    assert ',' !in opening && ',' !in current by {
      assert !IsDigit(',');
    }
    assert ToCsv(a) == a.id + [','] + (opening + [','] + current);
    SplitAt(a.id, opening + [','] + current, ',');
    SplitAt(opening, current, ',');
    SplitWithoutSeparator(opening, ',');
    SplitWithoutSeparator(current, ',');
  }

  /** Decoding undoes encoding for every id without a comma. */
  lemma CsvRoundTrip(a: Account)
    requires ',' !in a.id
    ensures FromCsv(ToCsv(a)) == Some(a)
  {
    CsvFields(a);
    SplitWithoutSeparator(a.id, ',');
    ParseDecimal(a.openingBalance);
    ParseDecimal(a.currentBalance);
  }

  /**
   * Two accounts encode to the same line only if they are the same account,
   * whatever their ids hold: the last two fields are always the balances.
   */
  lemma ToCsvInjective(a: Account, b: Account)
    requires ToCsv(a) == ToCsv(b)
    ensures a == b
  {
    CsvFields(a);
    CsvFields(b);
    var fields := Split(ToCsv(a), ',');
    var n := |fields| - 2;
    assert Split(a.id, ',') == fields[..n] == Split(b.id, ',');
    JoinSplit(a.id, ',');
    JoinSplit(b.id, ',');
    DecimalOfValue(a.openingBalance);
    DecimalOfValue(b.openingBalance);
    DecimalOfValue(a.currentBalance);
    DecimalOfValue(b.currentBalance);
  }

  /** A line with fewer than two commas, the empty line among them, decodes to nothing. */
  lemma FromCsvNeedsThreeFields(line: string)
    requires multiset(line)[','] < 2
    ensures FromCsv(line) == None
  {
    SplitCount(line, ',');
  }

  /**
   * The decoding of a line made of three comma-free fields: an account when
   * both balance fields parse as `u32`, nothing otherwise.
   */
  lemma FromCsvFields(id: string, opening: string, current: string)
    requires ',' !in id && ',' !in opening && ',' !in current
    ensures FromCsv(id + "," + opening + "," + current) ==
      if ParseUInt32(opening).Some? && ParseUInt32(current).Some?
      then Some(Account(id, ParseUInt32(opening).value, ParseUInt32(current).value))
      else None
  {
    assert id + "," + opening + "," + current == id + [','] + (opening + [','] + current);
    SplitAt(id, opening + [','] + current, ',');
    SplitAt(opening, current, ',');
    SplitWithoutSeparator(id, ',');
    SplitWithoutSeparator(opening, ',');
    SplitWithoutSeparator(current, ',');
  }

  /** Fields after the third do not change what a line decodes to. */
  lemma FromCsvIgnoresExtraFields(line: string, extra: string)
    requires multiset(line)[','] >= 2
    ensures FromCsv(line + "," + extra) == FromCsv(line)
  {
    SplitCount(line, ',');
    assert line + "," + extra == line + [','] + extra;
    SplitAt(line, extra, ',');
  }

  /** An account whose id holds a comma never decodes back to itself. */
  lemma CommaIdNotRestored(a: Account)
    requires ',' in a.id
    ensures FromCsv(ToCsv(a)) != Some(a)
  {
  }

  /**
   * An id `x,y` whose second part is not a `u32` is lost: its line decodes
   * to nothing.
   */
  lemma CommaIdIsDropped(x: string, y: string, opening: UInt32, current: UInt32)
    requires ',' !in x && ',' !in y && ParseUInt32(y) == None
    ensures FromCsv(ToCsv(Account(x + "," + y, opening, current))) == None
  {
    var a := Account(x + "," + y, opening, current);
    CsvFields(a);
    assert x + "," + y == x + [','] + y;
    SplitAt(x, y, ',');
    SplitWithoutSeparator(x, ',');
    SplitWithoutSeparator(y, ',');
  }

  /**
   * An id `x,o,c` that carries two balances reads back as a different
   * account: id `x` with balances `o` and `c`, whatever the account held.
   */
  lemma CommaIdReadsAsAnother(x: string, o: UInt32, c: UInt32, opening: UInt32, current: UInt32)
    requires ',' !in x
    ensures var id := x + "," + DecimalOf(o) + "," + DecimalOf(c);
      FromCsv(ToCsv(Account(id, opening, current))) == Some(Account(x, o, c))
  {
    var fo, fc := DecimalOf(o), DecimalOf(c);
    assert ',' !in fo && ',' !in fc by {
      assert !IsDigit(',');
    }
    var id := x + "," + fo + "," + fc;
    assert multiset(id)[','] >= 2 by {
      assert id == x + [','] + fo + [','] + fc;
    }
    var rest := DecimalOf(opening) + "," + DecimalOf(current);
    assert ToCsv(Account(id, opening, current)) == id + "," + rest;
    FromCsvIgnoresExtraFields(id, rest);
    FromCsvFields(x, fo, fc);
    ParseDecimal(o);
    ParseDecimal(c);
  }
}
