/**
 * The backing file of the ledger as text: loading turns the file's contents
 * into the map of accounts (the parsing loop of `Bank::init`), persisting
 * turns the map back into text (the rendering loop of `Bank::perist`).
 */
module LedgerFile {
  import opened Wrappers
  import opened Strings
  import opened AccountRecord

  /** `HashMap<String, Account>`. */
  type Accounts = map<string, Account>

  /** Every account is filed under its own id. */
  predicate KeysMatchIds(m: Accounts)
  {
    forall k :: k in m ==> m[k].id == k
  }

  /** An id that the line format can carry: no comma, no newline. */
  predicate StorableId(id: string)
  {
    ',' !in id && '\n' !in id
  }

  predicate AllStorable(m: Accounts)
  {
    forall k :: k in m ==> StorableId(m[k].id)
  }

  /** No id holds a newline, as no id read from one input line can. */
  predicate NewlineFreeIds(m: Accounts)
  {
    forall k :: k in m ==> '\n' !in m[k].id
  }

  /** What each line decodes to, line by line. */
  function DecodeLines(lines: seq<string>): (decoded: seq<Option<Account>>)
    ensures |decoded| == |lines|
  {
    seq(|lines|, i requires 0 <= i < |lines| => FromCsv(lines[i]))
  }

  /**
   * The accounts gathered from decoded lines in order: a decoded account is
   * filed under its id, replacing what an earlier line filed there; a line
   * that did not decode is skipped.
   */
  function Collect(decoded: seq<Option<Account>>): (m: Accounts)
    ensures KeysMatchIds(m)
  {
    if decoded == [] then map[]
    else
      var m := Collect(decoded[..|decoded| - 1]);
      match decoded[|decoded| - 1]
      case None => m
      case Some(a) => m[a.id := a]
  }

  /** The accounts of a file: its newline-separated lines, decoded and gathered. */
  function Load(text: string): (m: Accounts)
    ensures KeysMatchIds(m)
  {
    Collect(DecodeLines(Split(text, '\n')))
  }

  /** Entry `d` is an account with id `id`. */
  predicate HasId(d: Option<Account>, id: string)
  {
    d.Some? && d.value.id == id
  }

  /** No entry after index `j` is an account with id `id`. */
  predicate NoLaterEntry(decoded: seq<Option<Account>>, id: string, j: int)
  {
    forall i :: 0 <= i < |decoded| && j < i ==> !HasId(decoded[i], id)
  }

  /** Gathering one more decoded line files its account, or changes nothing. */
  lemma CollectSnoc(init: seq<Option<Account>>, d: Option<Account>)
    ensures Collect(init + [d]) == if d.Some? then Collect(init)[d.value.id := d.value] else Collect(init)
  {
    assert (init + [d])[..|init|] == init;
  }

  /** The gathered map holds `id` exactly when some line decoded to an account with that id. */
  lemma {:induction false} CollectHas(decoded: seq<Option<Account>>, id: string)
    ensures id in Collect(decoded) <==> exists j :: 0 <= j < |decoded| && HasId(decoded[j], id)
  {
    if decoded != [] {
      var n := |decoded| - 1;
      var init := decoded[..n];
      assert decoded == init + [decoded[n]];
      CollectSnoc(init, decoded[n]);
      CollectHas(init, id);
      if !HasId(decoded[n], id) {
        if id in Collect(decoded) {
          var j :| 0 <= j < n && HasId(init[j], id);
          assert HasId(decoded[j], id);
        } else {
          forall j | 0 <= j < n ensures !HasId(decoded[j], id) {
            assert decoded[j] == init[j];
          }
        }
      }
    }
  }

  /**
   * When line `j` is the last that decoded to an account with id `id`, the
   * gathered map files that line's account under `id`: later lines win.
   */
  lemma {:induction false} CollectLastWins(decoded: seq<Option<Account>>, id: string, j: int)
    requires 0 <= j < |decoded| && HasId(decoded[j], id) && NoLaterEntry(decoded, id, j)
    ensures id in Collect(decoded) && Collect(decoded)[id] == decoded[j].value
  {
    var n := |decoded| - 1;
    var init := decoded[..n];
    assert decoded == init + [decoded[n]];
    CollectSnoc(init, decoded[n]);
    if j < n {
      assert !HasId(decoded[n], id);
      assert NoLaterEntry(init, id, j) by {
        forall i | 0 <= i < n && j < i ensures !HasId(init[i], id) {
          assert init[i] == decoded[i];
        }
      }
      CollectLastWins(init, id, j);
    }
  }

  /** A line that does not decode may stand anywhere without changing what loads. */
  lemma {:induction false} SkipUndecodable(before: seq<Option<Account>>, after: seq<Option<Account>>)
    ensures Collect(before + [None] + after) == Collect(before + after)
    decreases |after|
  {
    var withBad, without := before + [None] + after, before + after;
    if after == [] {
      assert withBad[..|withBad| - 1] == before;
      assert without == before;
    } else {
      var n := |after| - 1;
      SkipUndecodable(before, after[..n]);
      assert withBad[..|withBad| - 1] == before + [None] + after[..n];
      assert without[..|without| - 1] == before + after[..n];
      assert withBad[|withBad| - 1] == after[n] == without[|without| - 1];
    }
  }

  /**
   * Gathering, in the order `order`, the accounts filed under those keys
   * gives `m` cut down to those keys, whatever the order and repetitions.
   */
  lemma {:induction false} CollectFiled(decoded: seq<Option<Account>>, order: seq<string>, m: Accounts)
    requires KeysMatchIds(m)
    requires |decoded| == |order|
    requires forall i :: 0 <= i < |order| ==> order[i] in m && decoded[i] == Some(m[order[i]])
    ensures Collect(decoded) == map k | k in m && k in order :: m[k]
  {
    if order == [] {
      assert (map k | k in m && k in order :: m[k]) == map[];
    } else {
      var n := |order| - 1;
      var init, last := order[..n], order[n];
      CollectFiled(decoded[..n], init, m);
      assert order == init + [last];
      assert forall k :: k in order <==> k in init || k == last;
    }
  }

  /** The records of the accounts filed under `order`, encoded, in that order. */
  function CsvLines(order: seq<string>, m: Accounts): (lines: seq<string>)
    requires forall i :: 0 <= i < |order| ==> order[i] in m
    ensures |lines| == |order|
    ensures forall i :: 0 <= i < |order| ==> lines[i] == ToCsv(m[order[i]])
  {
    if order == [] then []
    else CsvLines(order[..|order| - 1], m) + [ToCsv(m[order[|order| - 1]])]
  }

  /**
   * The text `Bank::perist` writes when the map yields its accounts in the
   * order `order`: each record followed by a newline.
   */
  function Render(order: seq<string>, m: Accounts): (text: string)
    requires forall i :: 0 <= i < |order| ==> order[i] in m
    ensures text == "" <==> order == []
    ensures order != [] ==> text[|text| - 1] == '\n'
  {
    Terminated(CsvLines(order, m), '\n')
  }

  /** Rendering one more key appends that account's record line and a newline. */
  lemma RenderAppend(order: seq<string>, k: string, m: Accounts)
    requires forall i :: 0 <= i < |order| ==> order[i] in m
    requires k in m
    ensures Render(order + [k], m) == Render(order, m) + (ToCsv(m[k]) + "\n")
  {
    var longer := order + [k];
    assert longer[..|order|] == order;
    var lines := CsvLines(longer, m);
    assert lines[..|order|] == CsvLines(order, m);
  }

  /** `order` lists every key of `m` once: an iteration order of the map. */
  predicate Enumerates(order: seq<string>, m: Accounts)
  {
    && |order| == |m|
    && (forall i :: 0 <= i < |order| ==> order[i] in m)
    && (forall k :: k in m ==> k in order)
  }

  /**
   * Part way through iterating `m`: the keys in `order` are visited once
   * each, the keys in `rest` are still to come, and none is both.
   */
  predicate Visiting(order: seq<string>, rest: set<string>, m: Accounts)
  {
    && rest <= m.Keys
    && |order| + |rest| == |m|
    && (forall i :: 0 <= i < |order| ==> order[i] in m && order[i] !in rest)
    && (forall k :: k in m && k !in rest ==> k in order)
  }

  /** Visiting one more key keeps the iteration consistent. */
  lemma VisitNext(order: seq<string>, rest: set<string>, k: string, m: Accounts)
    requires Visiting(order, rest, m) && k in rest
    ensures Visiting(order + [k], rest - {k}, m)
  {
    assert |rest - {k}| == |rest| - 1;
  }

  /** Once no key is left, the visited keys enumerate the map. */
  lemma VisitDone(order: seq<string>, m: Accounts)
    requires Visiting(order, {}, m)
    ensures Enumerates(order, m)
  {
  }

  /** `text` is what persisting `m` writes for some iteration order of `m`. */
  ghost predicate IsRenderingOf(text: string, m: Accounts)
  {
    exists order :: Enumerates(order, m) && text == Render(order, m)
  }

  /** Splitting rendered text at newlines gives the record lines, then one empty piece. */
  lemma SplitRender(order: seq<string>, m: Accounts)
    requires forall i :: 0 <= i < |order| ==> order[i] in m && '\n' !in m[order[i]].id
    ensures Split(Render(order, m), '\n') == CsvLines(order, m) + [""]
  {
    var lines := CsvLines(order, m);
    SplitTerminated(lines, "", '\n');
    assert Terminated(lines, '\n') + "" == Terminated(lines, '\n');
    SplitWithoutSeparator("", '\n');
  }

  /**
   * Record lines of storable accounts decode to those accounts, and the
   * empty piece after them decodes to nothing.
   */
  lemma DecodeCsvLines(order: seq<string>, m: Accounts)
    requires forall i :: 0 <= i < |order| ==> order[i] in m && StorableId(m[order[i]].id)
    ensures var decoded := DecodeLines(CsvLines(order, m) + [""]);
      && decoded[|order|] == None
      && forall i :: 0 <= i < |order| ==> decoded[i] == Some(m[order[i]])
  {
    var lines := CsvLines(order, m) + [""];
    forall i | 0 <= i < |order| ensures FromCsv(lines[i]) == Some(m[order[i]]) {
      CsvRoundTrip(m[order[i]]);
    }
    FromCsvNeedsThreeFields("");
  }

  /**
   * The lines of rendered text decode to the accounts they were written
   * from, followed by one empty piece that decodes to nothing.
   */
  lemma DecodeRendered(order: seq<string>, m: Accounts)
    requires forall i :: 0 <= i < |order| ==> order[i] in m && StorableId(m[order[i]].id)
    ensures var decoded := DecodeLines(Split(Render(order, m), '\n'));
      && |decoded| == |order| + 1
      && decoded[|order|] == None
      && forall i :: 0 <= i < |order| ==> decoded[i] == Some(m[order[i]])
  {
    SplitRender(order, m);
    DecodeCsvLines(order, m);
  }

  /**
   * Decoded lines holding the accounts of `m` in an iteration order, then
   * one line that decodes to nothing, gather back to `m`.
   */
  lemma CollectEnumerated(decoded: seq<Option<Account>>, order: seq<string>, m: Accounts)
    requires Enumerates(order, m) && KeysMatchIds(m)
    requires |decoded| == |order| + 1 && decoded[|order|] == None
    requires forall i :: 0 <= i < |order| ==> decoded[i] == Some(m[order[i]])
    ensures Collect(decoded) == m
  {
    var n := |order|;
    assert Collect(decoded) == Collect(decoded[..n]);
    CollectFiled(decoded[..n], order, m);
    assert (map k | k in m && k in order :: m[k]) == m;
  }

  /**
   * Load after persist: the text written for any iteration order loads back
   * as the same map, provided every id is storable.
   */
  lemma LoadRender(order: seq<string>, m: Accounts)
    requires Enumerates(order, m) && KeysMatchIds(m) && AllStorable(m)
    ensures Load(Render(order, m)) == m
  {
    var decoded := DecodeLines(Split(Render(order, m), '\n'));
    DecodeRendered(order, m);
    CollectEnumerated(decoded, order, m);
  }

  /** Whatever order the map yields, the persisted text loads back as the map. */
  lemma PersistedTextLoadsBack(text: string, m: Accounts)
    requires IsRenderingOf(text, m) && KeysMatchIds(m) && AllStorable(m)
    ensures Load(text) == m
  {
    var order :| Enumerates(order, m) && text == Render(order, m);
    LoadRender(order, m);
  }

  /**
   * The persisted text is one record line per account, each ended by a
   * newline (so the last piece is empty), in an iteration order of the map.
   */
  lemma PersistedLines(text: string, m: Accounts)
    requires IsRenderingOf(text, m) && NewlineFreeIds(m)
    ensures exists order :: Enumerates(order, m) && Split(text, '\n') == CsvLines(order, m) + [""]
  {
    var order :| Enumerates(order, m) && text == Render(order, m);
    SplitRender(order, m);
  }

  /**
   * The parsing loop of `Bank::init`: split the file's text at newlines and
   * file every line that decodes under its id, later lines overwriting.
   */
  method LoadAccounts(text: string) returns (accounts: Accounts)
    ensures accounts == Load(text)
  {
    var lines := Split(text, '\n');
    ghost var decoded := DecodeLines(lines);
    accounts := map[];
    var i := 0;
    while i < |lines|
      invariant 0 <= i <= |lines|
      invariant accounts == Collect(decoded[..i])
    {
      assert decoded[..i + 1][..i] == decoded[..i];
      assert decoded[i] == FromCsv(lines[i]);
      match FromCsv(lines[i]) {
        case None =>
        case Some(account) =>
          accounts := accounts[account.id := account];
      }
      i := i + 1;
    }
    assert decoded[..|lines|] == decoded;
  }
}
