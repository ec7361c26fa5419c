/**
 * federation/federation_configuration.go: the closure of EnsureConfiguration that completes the API server's secret
 * with an admin password, an admin token and the certificates.
 */
module Federation {
  import opened Prelude
  import opened AuthFile

  const USER_ADMIN := "admin"
  const BASIC_AUTH := "basic-auth.csv"
  const KNOWN_TOKENS := "known-tokens.csv"

  type Data = map<string, string>

  datatype Keys = Keys(caCert: string, serverCert: string, serverKey: string)

  /** What one run finds outside the secret: the key pairs, and what the random source yields, if it does. */
  datatype Round = Round(keys: Keys, password: Option<string>, token: Option<string>)

  datatype Configuration = Configuration(data: Data, adminPassword: string)

  // ----- One run

  /** The lines of a file of the secret; a file that is missing has none. */
  function LinesOf(data: Data, file: string): Result<seq<Line>> {
    if file in data then Parse(data[file]) else Ok([])
  }

  function AdminLine(secret: string): Line { Line(USER_ADMIN, secret, "admin") }

  /** The lines with an admin among them, who gets the drawn secret only if there was none. */
  function WithAdmin(lines: seq<Line>, drawn: Option<string>): Result<seq<Line>> {
    if Find(lines, USER_ADMIN).Some? then Ok(lines)
    else if drawn.None? then Err
    else Ok(lines + [AdminLine(drawn.value)])
  }

  function Completed(data: Data, file: string, drawn: Option<string>): Result<seq<Line>> {
    var lines := LinesOf(data, file);
    if lines.Err? then Err else WithAdmin(lines.value, drawn)
  }

  function Filled(data: Data, keys: Keys, basic: string, tokens: string): Data {
    data["ca.crt" := keys.caCert]["server.cert" := keys.serverCert]["server.key" := keys.serverKey]
      [BASIC_AUTH := basic][KNOWN_TOKENS := tokens]
  }

  function Configured(data: Data, round: Round): Result<Configuration> {
    var basic, tokens := Completed(data, BASIC_AUTH, round.password), Completed(data, KNOWN_TOKENS, round.token);
    if basic.Err? || tokens.Err? then Err
    else
      AdminIsThere(data, BASIC_AUTH, round.password);
      Ok(Configuration(Filled(data, round.keys, Encode(basic.value), Encode(tokens.value)),
                       Find(basic.value, USER_ADMIN).value.secret))
  }

  // ----- Completing one file

  lemma AdminIsThere(data: Data, file: string, drawn: Option<string>)
    requires Completed(data, file, drawn).Ok?
    ensures Find(Completed(data, file, drawn).value, USER_ADMIN).Some?
  {
    var lines := LinesOf(data, file).value;
    if Find(lines, USER_ADMIN).None? {
      FindAppend(lines, [AdminLine(drawn.value)], USER_ADMIN);
    }
  }

  /** fi.CreateSecret: 32 characters of the base64 alphabet without + / and =. */
  predicate Generated(secret: string) {
    |secret| == 32 && forall i :: 0 <= i < 32 ==> IsAlphanumeric(secret[i])
  }

  predicate IsAlphanumeric(c: char) { '0' <= c <= '9' || 'a' <= c <= 'z' || 'A' <= c <= 'Z' }

  predicate CleanDraw(drawn: Option<string>) { drawn.Some? ==> Clean(AdminLine(drawn.value)) }

  lemma GeneratedIsClean(secret: string)
    requires Generated(secret)
    ensures CleanDraw(Some(secret))
  {
    assert IsAlphanumeric(secret[0]);
    assert ',' !in secret && '\n' !in secret;
    assert Plain("admin");
  }

  /** Clean secrets make a file that reads back: every line stays, and at most the admin line is added at the end. */
  lemma CompletedReadsBack(data: Data, file: string, drawn: Option<string>)
    requires Completed(data, file, drawn).Ok? && CleanDraw(drawn)
    ensures var lines := Completed(data, file, drawn).value;
            && Parse(Encode(lines)) == Ok(lines)
            && LinesOf(data, file).value <= lines
            && (Find(LinesOf(data, file).value, USER_ADMIN).Some? ==> lines == LinesOf(data, file).value)
  {
    if file in data {
      ParsedIsClean(data[file]);
    }
    CleanReadsBack(Completed(data, file, drawn).value);
  }

  // ----- Where the credentials come from

  /** The file is there, it parses, and some line of it is the admin's. */
  ghost predicate HasAdmin(data: Data, file: string) {
    file in data && Parse(data[file]).Ok? &&
    exists i :: 0 <= i < |Parse(data[file]).value| && Parse(data[file]).value[i].user == "admin"
  }

  predicate Unreadable(data: Data, file: string) { file in data && Parse(data[file]).Err? }

  lemma FoundIffHasAdmin(data: Data, file: string)
    requires LinesOf(data, file).Ok?
    ensures Find(LinesOf(data, file).value, "admin").Some? <==> HasAdmin(data, file)
  {
    FindIsFirst(LinesOf(data, file).value, "admin");
  }

  lemma CompletedIs(data: Data, file: string, drawn: Option<string>)
    ensures Completed(data, file, drawn).Err? <==> Unreadable(data, file) || (!HasAdmin(data, file) && drawn.None?)
    ensures Completed(data, file, drawn).Ok? && HasAdmin(data, file) ==>
              Completed(data, file, drawn).value == Parse(data[file]).value
    ensures Completed(data, file, drawn).Ok? && !HasAdmin(data, file) ==>
              Find(Completed(data, file, drawn).value, "admin") == Some(Line("admin", drawn.value, "admin"))
  {
    if LinesOf(data, file).Ok? {
      FoundIffHasAdmin(data, file);
      if !HasAdmin(data, file) && drawn.Some? {
        FindAppend(LinesOf(data, file).value, [AdminLine(drawn.value)], "admin");
      }
    }
  }

  /** A run fails exactly when a file cannot be read, or a file without an admin needs a secret that is not drawn. */
  lemma ConfiguredFailsIff(data: Data, round: Round)
    ensures Configured(data, round).Err? <==>
            (|| Unreadable(data, "basic-auth.csv") || Unreadable(data, "known-tokens.csv")
             || (!HasAdmin(data, "basic-auth.csv") && round.password.None?)
             || (!HasAdmin(data, "known-tokens.csv") && round.token.None?))
  {
    CompletedIs(data, BASIC_AUTH, round.password);
    CompletedIs(data, KNOWN_TOKENS, round.token);
  }

  /**
   * Where the admin had no password or token, the one that was drawn is on file afterwards, and the password is handed
   * out; where there was one, it is the one that stays and is handed out.
   */
  lemma DrawnIsStored(data: Data, round: Round)
    requires CleanRound(round) && Configured(data, round).Ok?
    ensures var c := Configured(data, round).value;
            && "basic-auth.csv" in c.data && Parse(c.data["basic-auth.csv"]).Ok?
            && "known-tokens.csv" in c.data && Parse(c.data["known-tokens.csv"]).Ok?
            && var basic, tokens := Parse(c.data["basic-auth.csv"]).value, Parse(c.data["known-tokens.csv"]).value;
            && (!HasAdmin(data, "basic-auth.csv") ==>
                  && round.password == Some(c.adminPassword)
                  && Find(basic, "admin") == Some(Line("admin", c.adminPassword, "admin")))
            && (HasAdmin(data, "basic-auth.csv") ==>
                  && basic == Parse(data["basic-auth.csv"]).value
                  && Find(basic, "admin").Some? && c.adminPassword == Find(basic, "admin").value.secret)
            && (!HasAdmin(data, "known-tokens.csv") ==>
                  && round.token.Some?
                  && Find(tokens, "admin") == Some(Line("admin", round.token.value, "admin")))
            && (HasAdmin(data, "known-tokens.csv") ==> tokens == Parse(data["known-tokens.csv"]).value)
  {
    ConfiguredFiles(data, round);
    CompletedIs(data, BASIC_AUTH, round.password);
    CompletedIs(data, KNOWN_TOKENS, round.token);
  }

  // ----- Credentials over runs

  /** Every line of the one file stands in the other, and an admin keeps the line it had. */
  ghost predicate Keeps(before: Result<seq<Line>>, after: Result<seq<Line>>) {
    && (before.Err? ==> after.Err?)
    && (before.Ok? ==> after.Ok? && before.value <= after.value)
    && (before.Ok? && Find(before.value, USER_ADMIN).Some? ==> after.value == before.value)
  }

  predicate CleanRound(round: Round) { CleanDraw(round.password) && CleanDraw(round.token) }

  /** A run that succeeds: what is read back, what is kept, and what is handed out. */
  lemma ConfiguredFiles(data: Data, round: Round)
    requires CleanRound(round) && Configured(data, round).Ok?
    ensures var c := Configured(data, round).value;
            && LinesOf(c.data, BASIC_AUTH) == Completed(data, BASIC_AUTH, round.password)
            && LinesOf(c.data, KNOWN_TOKENS) == Completed(data, KNOWN_TOKENS, round.token)
            && Find(LinesOf(c.data, BASIC_AUTH).value, USER_ADMIN).Some?
            && Find(LinesOf(c.data, KNOWN_TOKENS).value, USER_ADMIN).Some?
            && c.adminPassword == Find(LinesOf(c.data, BASIC_AUTH).value, USER_ADMIN).value.secret
            && c.data[BASIC_AUTH] == Encode(LinesOf(c.data, BASIC_AUTH).value)
            && c.data[KNOWN_TOKENS] == Encode(LinesOf(c.data, KNOWN_TOKENS).value)
  {
    CompletedReadsBack(data, BASIC_AUTH, round.password);
    CompletedReadsBack(data, KNOWN_TOKENS, round.token);
    AdminIsThere(data, BASIC_AUTH, round.password);
    AdminIsThere(data, KNOWN_TOKENS, round.token);
    assert BASIC_AUTH != KNOWN_TOKENS;
  }

  /** The keys are stored under their names, and entries the run knows nothing of stay. */
  lemma ConfiguredKeys(data: Data, round: Round, other: string)
    requires Configured(data, round).Ok?
    requires other !in ["ca.crt", "server.cert", "server.key", BASIC_AUTH, KNOWN_TOKENS]
    ensures var after := Configured(data, round).value.data;
            && {"ca.crt", "server.cert", "server.key", BASIC_AUTH, KNOWN_TOKENS} <= after.Keys
            && after["ca.crt"] == round.keys.caCert
            && after["server.cert"] == round.keys.serverCert
            && after["server.key"] == round.keys.serverKey
            && (other in after <==> other in data)
            && (other in data ==> after[other] == data[other])
  {
    assert |"ca.crt"| == 6 && |"server.cert"| == 11 && |"server.key"| == 10;
    assert |BASIC_AUTH| == 14 && |KNOWN_TOKENS| == 16;
    var names := ["ca.crt", "server.cert", "server.key", BASIC_AUTH, KNOWN_TOKENS];
    assert other != names[0] && other != names[1] && other != names[2] && other != names[3] && other != names[4];
  }

  lemma ConfiguredKeeps(data: Data, round: Round)
    requires CleanRound(round) && Configured(data, round).Ok?
    ensures Keeps(LinesOf(data, BASIC_AUTH), LinesOf(Configured(data, round).value.data, BASIC_AUTH))
    ensures Keeps(LinesOf(data, KNOWN_TOKENS), LinesOf(Configured(data, round).value.data, KNOWN_TOKENS))
  {
    ConfiguredFiles(data, round);
    CompletedReadsBack(data, BASIC_AUTH, round.password);
    CompletedReadsBack(data, KNOWN_TOKENS, round.token);
  }

  /** The secret after any number of runs; a run that fails sends nothing. */
  function After(data: Data, rounds: seq<Round>): Data
    decreases |rounds|
  {
    if rounds == [] then data
    else if Configured(data, rounds[0]).Err? then After(data, rounds[1..])
    else After(Configured(data, rounds[0]).value.data, rounds[1..])
  }

  predicate CleanRounds(rounds: seq<Round>) { forall i :: 0 <= i < |rounds| ==> CleanRound(rounds[i]) }

  lemma KeepsOn(a: Result<seq<Line>>, b: Result<seq<Line>>, c: Result<seq<Line>>)
    requires Keeps(a, b) && Keeps(b, c)
    ensures Keeps(a, c)
  {
  }

  /** Whatever the secret holds, no run drops a line, and an admin password or token that is there never changes. */
  lemma {:induction false} RunsKeepCredentials(data: Data, rounds: seq<Round>)
    requires CleanRounds(rounds)
    ensures Keeps(LinesOf(data, BASIC_AUTH), LinesOf(After(data, rounds), BASIC_AUTH))
    ensures Keeps(LinesOf(data, KNOWN_TOKENS), LinesOf(After(data, rounds), KNOWN_TOKENS))
    decreases |rounds|
  {
    if rounds != [] {
      assert CleanRound(rounds[0]);
      if Configured(data, rounds[0]).Err? {
        RunsKeepCredentials(data, rounds[1..]);
      } else {
        var next := Configured(data, rounds[0]).value.data;
        ConfiguredKeeps(data, rounds[0]);
        RunsKeepCredentials(next, rounds[1..]);
        KeepsOn(LinesOf(data, BASIC_AUTH), LinesOf(next, BASIC_AUTH), LinesOf(After(next, rounds[1..]), BASIC_AUTH));
        KeepsOn(LinesOf(data, KNOWN_TOKENS), LinesOf(next, KNOWN_TOKENS),
                LinesOf(After(next, rounds[1..]), KNOWN_TOKENS));
      }
    }
  }

  lemma FilledTwice(data: Data, keys: Keys, basic: string, tokens: string)
    ensures Filled(Filled(data, keys, basic, tokens), keys, basic, tokens) == Filled(data, keys, basic, tokens)
  {
  }

  /** The second run finds its own work: same password, same bytes, nothing drawn. */
  lemma SecondRunChangesNothing(data: Data, first: Round, second: Round)
    requires CleanRound(first) && Configured(data, first).Ok? && second.keys == first.keys
    ensures Configured(Configured(data, first).value.data, second) == Configured(data, first)
  {
    var c := Configured(data, first).value;
    ConfiguredFiles(data, first);
    assert Completed(c.data, BASIC_AUTH, second.password) == LinesOf(c.data, BASIC_AUTH);
    assert Completed(c.data, KNOWN_TOKENS, second.token) == LinesOf(c.data, KNOWN_TOKENS);
    FilledTwice(data, first.keys, c.data[BASIC_AUTH], c.data[KNOWN_TOKENS]);
  }

  /** The file is in the form the closure writes, with an admin in it. */
  predicate Written(data: Data, file: string) {
    && file in data && Parse(data[file]).Ok? && Find(Parse(data[file]).value, USER_ADMIN).Some?
    && data[file] == Encode(Parse(data[file]).value)
  }

  predicate Complete(data: Data) { Written(data, BASIC_AUTH) && Written(data, KNOWN_TOKENS) }

  function Password(data: Data): string
    requires Complete(data)
  {
    Find(Parse(data[BASIC_AUTH]).value, USER_ADMIN).value.secret
  }

  predicate SameCredentials(a: Data, b: Data) {
    Complete(a) && Complete(b) && a[BASIC_AUTH] == b[BASIC_AUTH] && a[KNOWN_TOKENS] == b[KNOWN_TOKENS]
  }

  /** On a complete secret every run succeeds and draws nothing. */
  lemma CompleteStays(data: Data, round: Round)
    requires Complete(data)
    ensures Configured(data, round).Ok?
    ensures var c := Configured(data, round).value; SameCredentials(data, c.data) && c.adminPassword == Password(data)
  {
    assert BASIC_AUTH != KNOWN_TOKENS;
  }

  lemma {:induction false} CompleteForGood(data: Data, rounds: seq<Round>)
    requires Complete(data)
    ensures SameCredentials(data, After(data, rounds))
    decreases |rounds|
  {
    if rounds != [] {
      CompleteStays(data, rounds[0]);
      CompleteForGood(Configured(data, rounds[0]).value.data, rounds[1..]);
    }
  }

  /**
   * After the first run that succeeds: however many runs follow, with whatever keys and whatever they might draw, the
   * bytes of both files stay as they are, and every further run succeeds and hands out the same password.
   */
  lemma CredentialsAreConstant(data: Data, first: Round, rounds: seq<Round>, last: Round)
    requires CleanRound(first) && Configured(data, first).Ok?
    ensures var c := Configured(data, first).value;
            var later := After(c.data, rounds);
            && SameCredentials(c.data, later)
            && Configured(later, last).Ok? && Configured(later, last).value.adminPassword == c.adminPassword
  {
    ConfiguredFiles(data, first);
    var c := Configured(data, first).value;
    CompleteForGood(c.data, rounds);
    CompleteStays(After(c.data, rounds), last);
  }

  // ----- The closure on the secret object

  class Secret {
    var data: Data

    constructor ()
      ensures data == map[]
    {
      data := map[];
    }

    method Fill(keys: Keys, basic: string, tokens: string)
      modifies this
      ensures data == Filled(old(data), keys, basic, tokens)
    {
      data := data["ca.crt" := keys.caCert];
      data := data["server.cert" := keys.serverCert];
      data := data["server.key" := keys.serverKey];
      data := data[BASIC_AUTH := basic];
      data := data[KNOWN_TOKENS := tokens];
    }
  }

  function DataOf(s: Secret?): Data
    reads s
  {
    if s == null then map[] else s.data
  }

  /** findBasicAuth and findKnownTokens, with the empty file made for a missing one. */
  method FindFile(s: Secret?, file: string) returns (r: Result<File>)
    ensures r.Ok? <==> LinesOf(DataOf(s), file).Ok?
    ensures r.Ok? ==> fresh(r.value) && r.value.lines == LinesOf(DataOf(s), file).value
  {
    if s == null || file !in s.data {
      var empty := new File();
      return Ok(empty);
    }
    r := ParseAuthFile(s.data[file]);
  }

  /** The file with its admin, and the admin's secret, are those of the specification. */
  predicate Ensured(before: seq<Line>, drawn: Option<string>, after: seq<Line>, secret: Option<string>) {
    && (secret.None? <==> WithAdmin(before, drawn).Err?)
    && (secret.Some? ==>
          && WithAdmin(before, drawn) == Ok(after)
          && Find(after, USER_ADMIN).Some? && Find(after, USER_ADMIN).value.secret == secret.value)
  }

  /** The admin's secret, drawn and added if the file has no admin. */
  method EnsureAdmin(f: File, drawn: Option<string>) returns (secret: Option<string>)
    modifies f
    ensures Find(old(f.lines), "admin").Some? ==>
              f.lines == old(f.lines) && secret == Some(Find(old(f.lines), "admin").value.secret)
    ensures Find(old(f.lines), "admin").None? ==>
              && secret == drawn
              && f.lines == old(f.lines) + if drawn.None? then [] else [Line("admin", drawn.value, "admin")]
    ensures Ensured(old(f.lines), drawn, f.lines, secret)
  {
    var u := f.FindUser(USER_ADMIN);
    if u.Some? {
      return Some(u.value.secret);
    }
    if drawn.None? {
      return None;
    }
    FindIsFirst(f.lines, USER_ADMIN);
    FindAppend(f.lines, [AdminLine(drawn.value)], USER_ADMIN);
    var added := f.Add(Line(USER_ADMIN, drawn.value, "admin"));
    assert added;
    return Some(drawn.value);
  }

  /** What two completed files make of the secret. */
  lemma ConfiguredFrom(data: Data, round: Round, basic: seq<Line>, tokens: seq<Line>, password: Option<string>,
                       token: Option<string>)
    requires LinesOf(data, BASIC_AUTH).Ok? && LinesOf(data, KNOWN_TOKENS).Ok?
    requires Ensured(LinesOf(data, BASIC_AUTH).value, round.password, basic, password)
    requires Ensured(LinesOf(data, KNOWN_TOKENS).value, round.token, tokens, token)
    ensures Configured(data, round).Err? <==> password.None? || token.None?
    ensures password.Some? && token.Some? ==>
              Configured(data, round)
              == Ok(Configuration(Filled(data, round.keys, Encode(basic), Encode(tokens)), password.value))
  {
  }

  /** The part of the closure that leaves the secret alone: the two files completed, and the password. */
  method CompleteFiles(existing: Secret?, round: Round)
    returns (ok: bool, adminPassword: string, basic: string, tokens: string)
    ensures ok <==> Configured(DataOf(existing), round).Ok?
    ensures ok ==> Configured(DataOf(existing), round)
                   == Ok(Configuration(Filled(DataOf(existing), round.keys, basic, tokens), adminPassword))
  {
    ok, adminPassword, basic, tokens := false, "", "", "";
    var basicAuthData := FindFile(existing, BASIC_AUTH);
    if basicAuthData.Err? {
      return;
    }
    var knownTokens := FindFile(existing, KNOWN_TOKENS);
    if knownTokens.Err? {
      return;
    }
    var password := EnsureAdmin(basicAuthData.value, round.password);
    if password.None? {
      return;
    }
    var token := EnsureAdmin(knownTokens.value, round.token);
    ConfiguredFrom(DataOf(existing), round, basicAuthData.value.lines, knownTokens.value.lines, password, token);
    if token.None? {
      return;
    }
    ok, adminPassword := true, password.value;
    basic := basicAuthData.value.EncodeFile();
    tokens := knownTokens.value.EncodeFile();
  }

  /** On failure the secret is as it was; on success its data and the password are those of Configured. */
  method MutateSecret(existing: Secret?, round: Round) returns (updated: Secret?, adminPassword: string)
    modifies if existing == null then {} else {existing}
    ensures updated == null <==> Configured(old(DataOf(existing)), round).Err?
    ensures updated == null ==> existing == null || existing.data == old(existing.data)
    ensures updated != null ==>
              && Configured(old(DataOf(existing)), round) == Ok(Configuration(updated.data, adminPassword))
              && (existing != null ==> updated == existing)
  {
    var ok, basic, tokens;
    ok, adminPassword, basic, tokens := CompleteFiles(existing, round);
    if !ok {
      return null, "";
    }
    var s := existing;
    if s == null {
      s := new Secret();
    }
    s.Fill(round.keys, basic, tokens);
    updated := s;
  }
}
