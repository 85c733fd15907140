/**
 Column encryption and the start-up migration of plaintext secrets (app_core/crypto.py). Fernet is an
 abstract pair of functions under one key; encryption takes a nonce because its tokens are randomised.
 */
module SecretBackfill {
  import opened Wrappers

  const ENC_PREFIX := "enc:v1:"

  const ENCRYPTED_COLUMNS: seq<(string, string)> := [
    ("icecast_settings", "source_password"),
    ("icecast_settings", "admin_password"),
    ("tts_settings", "azure_openai_key"),
    ("notification_settings", "smtp_password"),
    ("notification_settings", "sms_auth_token"),
    ("notification_settings", "snmp_community"),
    ("tailscale_settings", "auth_key"),
    ("tickstem_settings", "api_key"),
    ("admin_users", "mfa_secret"),
    ("map_tile_settings", "carto_api_key")]

  datatype Fernet = Fernet(encrypt: (nat, string) -> string, decrypt: string -> Option<string>)

  predicate Ascii(s: string) { forall c <- s :: c as int < 128 }

  /** Decryption undoes encryption, and tokens are plain ASCII. */
  ghost predicate Sound(f: Fernet) {
    forall nonce: nat, text :: Ascii(f.encrypt(nonce, text)) && f.decrypt(f.encrypt(nonce, text)) == Some(text)
  }

  predicate Prefixed(s: string) { ENC_PREFIX <= s }

  function EncryptSecret(f: Fernet, nonce: nat, plaintext: Option<string>): Option<string> {
    if plaintext.None? || plaintext.value == "" then plaintext
    else Some(ENC_PREFIX + f.encrypt(nonce, plaintext.value))
  }

  /** What reading a cell gives; without a key, or on a token that is not ASCII, reading raises. */
  datatype View = Value(value: Option<string>) | Raises

  function DecryptSecret(key: Option<Fernet>, value: Option<string>): View {
    if value.None? || !Prefixed(value.value) then Value(value)
    else
      var token := value.value[|ENC_PREFIX|..];
      if key.None? || !Ascii(token) then Raises
      else
        var text := key.value.decrypt(token);
        Value(Some(if text.Some? then text.value else ""))
  }

  /** How a stored cell reads, case by case. */
  lemma ReadingOf(key: Option<Fernet>, value: string)
    ensures !("enc:v1:" <= value) ==> DecryptSecret(key, Some(value)) == Value(Some(value))
    ensures DecryptSecret(key, None) == Value(None)
    ensures "enc:v1:" <= value ==>
              var token := value[7..];
              if key.None? || (exists c <- token :: c as int >= 128) then DecryptSecret(key, Some(value)) == Raises
              else match key.value.decrypt(token)
                   case Some(text) => DecryptSecret(key, Some(value)) == Value(Some(text))
                   case None => DecryptSecret(key, Some(value)) == Value(Some(""))
  {
  }

  /** Only a text that says something is encrypted, and it is marked as such. */
  lemma WrittenForm(f: Fernet, nonce: nat, plaintext: Option<string>)
    ensures plaintext == None || plaintext == Some("") ==> EncryptSecret(f, nonce, plaintext) == plaintext
    ensures plaintext != None && plaintext != Some("") ==>
              var cell := EncryptSecret(f, nonce, plaintext);
              cell.Some? && "enc:v1:" <= cell.value && cell.value[7..] == f.encrypt(nonce, plaintext.value)
  {
  }

  /** Whatever was written is read back, even a plaintext that happens to begin with the prefix. */
  lemma WrittenSecretReadsBack(f: Fernet, nonce: nat, plaintext: Option<string>)
    requires Sound(f)
    ensures DecryptSecret(Some(f), EncryptSecret(f, nonce, plaintext)) == Value(plaintext)
  {
    if plaintext.Some? && plaintext.value != "" {
      var token := f.encrypt(nonce, plaintext.value);
      assert (ENC_PREFIX + token)[|ENC_PREFIX|..] == token;
    }
  }

  /**
   A cell written as plaintext before encryption existed reads as itself exactly if it does not begin
   with the prefix, or by chance decrypts to itself.
   */
  lemma LegacyPlaintextReadsAsItself(f: Fernet, plaintext: string)
    ensures DecryptSecret(Some(f), Some(plaintext)) == Value(Some(plaintext)) <==>
            !Prefixed(plaintext)
            || (Ascii(plaintext[|ENC_PREFIX|..]) && f.decrypt(plaintext[|ENC_PREFIX|..]) == Some(plaintext))
  {
  }

  datatype Cell = Cell(table: string, column: string, rowId: int)

  type Cells = map<Cell, Option<string>>

  predicate Listed(c: Cell, tables: set<string>, columns: seq<(string, string)>) {
    c.table in tables && (c.table, c.column) in columns
  }

  /** A listed cell that still holds plaintext. */
  predicate NeedsEncryption(cells: Cells, tables: set<string>, columns: seq<(string, string)>, c: Cell) {
    && c in cells && Listed(c, tables, columns)
    && cells[c].Some? && cells[c].value != "" && !Prefixed(cells[c].value)
  }

  function Pending(cells: Cells, tables: set<string>, columns: seq<(string, string)>): set<Cell> {
    set c | c in cells && NeedsEncryption(cells, tables, columns, c)
  }

  /** `now` is `start` with exactly the cells `done` encrypted. */
  ghost predicate Encrypted(f: Fernet, start: Cells, now: Cells, done: set<Cell>) {
    && now.Keys == start.Keys
    && (forall c | c in start && c !in done :: now[c] == start[c])
    && (forall c <- done :: c in start && EncryptedCell(f, start[c], now[c]))
  }

  ghost predicate EncryptedCell(f: Fernet, before: Option<string>, after: Option<string>) {
    exists nonce: nat :: after == EncryptSecret(f, nonce, before)
  }

  /** Encrypting the pending cells changes no reading, and leaves none pending. */
  lemma MigrationPreservesReadings(f: Fernet, start: Cells, now: Cells, tables: set<string>)
    requires Sound(f) && Encrypted(f, start, now, Pending(start, tables, ENCRYPTED_COLUMNS))
    ensures forall c <- start :: DecryptSecret(Some(f), now[c]) == DecryptSecret(Some(f), start[c])
    ensures forall c <- now | Listed(c, tables, ENCRYPTED_COLUMNS) && now[c].Some? && now[c].value != "" ::
              Prefixed(now[c].value)
    ensures Pending(now, tables, ENCRYPTED_COLUMNS) == {}
  {
    var pending := Pending(start, tables, ENCRYPTED_COLUMNS);
    forall c | c in start
      ensures DecryptSecret(Some(f), now[c]) == DecryptSecret(Some(f), start[c])
      ensures c in pending ==> Prefixed(now[c].value)
    {
      if c in pending {
        var nonce: nat :| now[c] == EncryptSecret(f, nonce, start[c]);
        WrittenSecretReadsBack(f, nonce, start[c]);
      }
    }
  }

  datatype BackfillError = NoSecretKey

  lemma InhabitedCells(s: set<Cell>)
    ensures s == {} || exists c :: c in s
  {
    if !exists c :: c in s {
      assert s == {};
    }
  }

  /** SELECT id, column FROM table WHERE column IS NOT NULL AND column != '' */
  function Selected(cells: Cells, column: (string, string)): set<Cell> {
    set c | c in cells && c.table == column.0 && c.column == column.1 && cells[c].Some? && cells[c].value != ""
  }

  function Plain(cells: Cells, column: (string, string)): set<Cell> {
    set c | c in Selected(cells, column) && !Prefixed(cells[c].value)
  }

  /** The rows of a column that remain to be looked at, and those that have been rewritten. */
  lemma NextCell(cells: Cells, column: (string, string), rest: set<Cell>, c: Cell)
    requires rest <= Selected(cells, column) && c in rest
    ensures c in cells && cells[c].Some? && c !in Plain(cells, column) - rest
    ensures Plain(cells, column) - (rest - {c})
         == (Plain(cells, column) - rest) + if Prefixed(cells[c].value) then {} else {c}
    ensures |Plain(cells, column) - (rest - {c})|
         == |Plain(cells, column) - rest| + if Prefixed(cells[c].value) then 0 else 1
  {
    hide Prefixed;
    var before := Plain(cells, column) - rest;
    assert Plain(cells, column) - (rest - {c}) == before + if Prefixed(cells[c].value) then {} else {c};
    assert before + {} == before;
  }

  /** Rewriting one more cell. */
  lemma EncryptOne(f: Fernet, start: Cells, now: Cells, done: set<Cell>, c: Cell, nonce: nat)
    requires Encrypted(f, start, now, done) && c in start && c !in done
    ensures c in now && now[c] == start[c]
    ensures Encrypted(f, start, now[c := EncryptSecret(f, nonce, start[c])], done + {c})
  {
    assert EncryptedCell(f, start[c], EncryptSecret(f, nonce, start[c]));
  }

  lemma EncryptMore(f: Fernet, start: Cells, mid: Cells, now: Cells, done: set<Cell>, more: set<Cell>)
    requires Encrypted(f, start, mid, done) && Encrypted(f, mid, now, more) && done !! more
    ensures Encrypted(f, start, now, done + more)
  {
    forall c <- done + more ensures c in start && EncryptedCell(f, start[c], now[c]) {
      if c in done {
        assert c !in more && now[c] == mid[c];
      } else {
        assert mid[c] == start[c];
      }
    }
  }

  /** The cells pending in the first columns are those of the earlier columns and of the last one. */
  lemma PendingNextColumn(cells: Cells, tables: set<string>, i: nat)
    requires i < |ENCRYPTED_COLUMNS|
    ensures Pending(cells, tables, ENCRYPTED_COLUMNS[..i + 1])
         == Pending(cells, tables, ENCRYPTED_COLUMNS[..i])
            + if ENCRYPTED_COLUMNS[i].0 in tables then Plain(cells, ENCRYPTED_COLUMNS[i]) else {}
    ensures Pending(cells, tables, ENCRYPTED_COLUMNS[..i]) !! Plain(cells, ENCRYPTED_COLUMNS[i])
  {
    ColumnsDistinct(i);
    var cols, col := ENCRYPTED_COLUMNS[..i], ENCRYPTED_COLUMNS[i];
    assert ENCRYPTED_COLUMNS[..i + 1] == cols + [col];
    assert forall c: Cell :: (c.table, c.column) == col <==> c.table == col.0 && c.column == col.1;
  }

  lemma ColumnsDistinct(i: nat)
    requires i < |ENCRYPTED_COLUMNS|
    ensures ENCRYPTED_COLUMNS[i] !in ENCRYPTED_COLUMNS[..i]
  {
  }

  /** Encrypting earlier columns leaves the plaintext of another column as it was. */
  lemma PlainUntouched(f: Fernet, start: Cells, mid: Cells, done: set<Cell>, column: (string, string))
    requires Encrypted(f, start, mid, done) && done !! Plain(start, column)
    requires Sound(f) && forall c <- done :: c in start && start[c].Some? && start[c].value != ""
    ensures Plain(mid, column) == Plain(start, column)
  {
    forall c ensures c in Plain(mid, column) <==> c in Plain(start, column) {
      if c in done {
        var nonce: nat :| mid[c] == EncryptSecret(f, nonce, start[c]);
        assert Prefixed(mid[c].value);
      }
    }
  }

  class SecretStore {
    var cells: Cells
    const tables: set<string>

    constructor (cells: Cells, tables: set<string>)
      ensures this.cells == cells && this.tables == tables
    {
      this.cells, this.tables := cells, tables;
    }

    /** One pass over one column's rows, in whatever order they come. */
    static method EncryptColumn(f: Fernet, work: Cells, column: (string, string), nonce: nat)
      returns (work': Cells, count: nat)
      ensures Encrypted(f, work, work', Plain(work, column))
      ensures count == |Plain(work, column)|
    {
      hide Encrypted, EncryptedCell, EncryptSecret, Prefixed, Selected, Plain;
      work', count := work, 0;
      var rest := Selected(work, column);
      ghost var written: set<Cell> := {};
      NothingEncrypted(f, work);
      while rest != {}
        invariant rest <= Selected(work, column)
        invariant written == Plain(work, column) - rest && count == |written|
        invariant Encrypted(f, work, work', written)
        decreases rest
      {
        InhabitedCells(rest);
        var cell :| cell in rest;
        NextCell(work, column, rest, cell);
        rest := rest - {cell};
        EncryptOne(f, work, work', written, cell, nonce + count);
        if !Prefixed(work'[cell].value) {
          work' := work'[cell := EncryptSecret(f, nonce + count, work'[cell])];
          written := written + {cell};
          count := count + 1;
        }
      }
      assert written == Plain(work, column);
    }

    /**
     The start-up migration. It rewrites exactly the listed cells that hold plaintext and reports how
     many; every cell reads as before; all listed secrets end up prefixed, so a second run rewrites
     none. Without a key it fails, changing nothing, exactly if there is something to encrypt.
     */
    method BackfillLegacyPlaintextSecrets(key: Option<Fernet>) returns (r: Result<nat, BackfillError>)
      requires key.Some? ==> Sound(key.value)
      modifies this
      ensures r.Err? <==> key.None? && Pending(old(cells), tables, ENCRYPTED_COLUMNS) != {}
      ensures r.Err? || key.None? ==> cells == old(cells)
      ensures r.Ok? ==> r.value == |Pending(old(cells), tables, ENCRYPTED_COLUMNS)|
      ensures r.Ok? && key.Some? ==>
                && Encrypted(key.value, old(cells), cells, Pending(old(cells), tables, ENCRYPTED_COLUMNS))
                && (forall c <- cells :: DecryptSecret(key, cells[c]) == DecryptSecret(key, old(cells)[c]))
      ensures r.Ok? ==> Pending(cells, tables, ENCRYPTED_COLUMNS) == {}
      // Cell by cell
      ensures cells.Keys == old(cells).Keys
      ensures r.Ok? && key.Some? ==> forall c <- cells ::
                if c.table in tables && (c.table, c.column) in ENCRYPTED_COLUMNS
                   && old(cells)[c].Some? && old(cells)[c].value != "" && !("enc:v1:" <= old(cells)[c].value)
                then cells[c].Some? && "enc:v1:" <= cells[c].value else cells[c] == old(cells)[c]
    {
      hide Pending, Plain, Encrypted, DecryptSecret, Sound;
      ghost var start := cells;
      if key.None? {
        r := if Pending(cells, tables, ENCRYPTED_COLUMNS) != {} then Err(NoSecretKey) else Ok(0);
        return;
      }
      var f := key.value;
      var work, count: nat := cells, 0;
      NothingEncrypted(f, cells);
      assert ENCRYPTED_COLUMNS[..0] == [];
      for i := 0 to |ENCRYPTED_COLUMNS|
        invariant cells == start
        invariant Encrypted(f, start, work, Pending(start, tables, ENCRYPTED_COLUMNS[..i]))
        invariant count == |Pending(start, tables, ENCRYPTED_COLUMNS[..i])|
      {
        ghost var before := work;
        if ENCRYPTED_COLUMNS[i].0 in tables {
          var n;
          work, n := EncryptColumn(f, work, ENCRYPTED_COLUMNS[i], count);
          count := count + n;
        }
        ColumnStep(f, start, before, work, tables, i);
      }
      assert ENCRYPTED_COLUMNS[..|ENCRYPTED_COLUMNS|] == ENCRYPTED_COLUMNS;
      MigrationPreservesReadings(f, start, work, tables);
      NothingRewritten(f, start, work, Pending(start, tables, ENCRYPTED_COLUMNS));
      CellByCell(f, start, work, tables);
      if count > 0 {
        cells := work;
      }
      r := Ok(count);
    }
  }

  lemma CellByCell(f: Fernet, start: Cells, now: Cells, tables: set<string>)
    requires Encrypted(f, start, now, Pending(start, tables, ENCRYPTED_COLUMNS))
    ensures now.Keys == start.Keys
    ensures forall c <- now ::
              if c.table in tables && (c.table, c.column) in ENCRYPTED_COLUMNS
                 && start[c].Some? && start[c].value != "" && !("enc:v1:" <= start[c].value)
              then now[c].Some? && "enc:v1:" <= now[c].value else now[c] == start[c]
  {
    hide ENCRYPTED_COLUMNS;
    forall c <- now | c in Pending(start, tables, ENCRYPTED_COLUMNS) ensures now[c].Some? && "enc:v1:" <= now[c].value {
      var nonce: nat :| now[c] == EncryptSecret(f, nonce, start[c]);
    }
  }

  lemma NothingRewritten(f: Fernet, start: Cells, now: Cells, done: set<Cell>)
    requires Encrypted(f, start, now, done)
    ensures now.Keys == start.Keys
    ensures |done| == 0 ==> now == start
  {
  }

  /** What one more column adds to the cells encrypted so far. */
  lemma ColumnStep(f: Fernet, start: Cells, work: Cells, work': Cells, tables: set<string>, i: nat)
    requires Sound(f) && i < |ENCRYPTED_COLUMNS|
    requires Encrypted(f, start, work, Pending(start, tables, ENCRYPTED_COLUMNS[..i]))
    requires if ENCRYPTED_COLUMNS[i].0 in tables then Encrypted(f, work, work', Plain(work, ENCRYPTED_COLUMNS[i])) else work' == work
    ensures Encrypted(f, start, work', Pending(start, tables, ENCRYPTED_COLUMNS[..i + 1]))
    ensures |Pending(start, tables, ENCRYPTED_COLUMNS[..i + 1])| == |Pending(start, tables, ENCRYPTED_COLUMNS[..i])|
              + if ENCRYPTED_COLUMNS[i].0 in tables then |Plain(work, ENCRYPTED_COLUMNS[i])| else 0
  {
    var done, plain := Pending(start, tables, ENCRYPTED_COLUMNS[..i]), Plain(start, ENCRYPTED_COLUMNS[i]);
    PendingNextColumn(start, tables, i);
    assert done + {} == done;
    if ENCRYPTED_COLUMNS[i].0 in tables {
      assert forall c <- done :: c in start && start[c].Some? && start[c].value != "";
      hide Pending, Plain, Encrypted;
      PlainUntouched(f, start, work, done, ENCRYPTED_COLUMNS[i]);
      EncryptMore(f, start, work, work', done, plain);
      assert |done + plain| == |done| + |plain|;
    }
  }

  lemma NothingEncrypted(f: Fernet, cells: Cells)
    ensures Encrypted(f, cells, cells, {})
    ensures forall tables :: Pending(cells, tables, []) == {}
    ensures forall column :: Plain(cells, column) - Selected(cells, column) == {}
  {
  }
}
