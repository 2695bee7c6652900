/** Recorded responses as JSON values, and what storing one does to it. */
module Responses {
  import opened Prelude
  import opened Redaction

  datatype Json = Null | Bool(b: bool) | Number(n: real) | Text(s: string) | List(items: seq<Json>) | Object(fields: seq<Field>)

  datatype Field = Field(name: string, value: Json)

  const MAX_DEPTH := 16
  const TOO_DEEP := "[TRUNCATED_DEPTH]"

  // ---------------------------------------------------------------- names that hide their values

  /** `word` stands somewhere in `text`, in capitals or not. */
  predicate Mentions(text: string, word: string) { exists i | 0 <= i <= |text| - |word| :: SaysAt(text, word, i) }

  predicate SaysAt(text: string, word: string, i: nat)
    requires i + |word| <= |text|
  {
    forall j | 0 <= j < |word| :: Lower(text[i + j]) == word[j]
  }

  const SENSITIVE: set<string> := {
    "secret", "seed", "password", "passphrase", "token", "auth", "credential", "bearer", "cookie",
    "rawbody", "raw_body", "responsebody", "response_body", "requestbody", "request_body", "httpbody", "http_body",
    "responsedata", "response_data", "disallowedaddress", "disallowed_address", "forbiddenaddress", "forbidden_address",
    "disallowedaccount", "disallowed_account", "forbiddenaccount", "forbidden_account",
    "_key", "\U{8}key", "privatekey", "apikey", "signingkey" }

  /** The whole name, in capitals or not. */
  predicate Reads(text: string, word: string) { |text| == |word| && SaysAt(text, word, 0) }

  predicate Sensitive(name: string)
  {
    && !Mentions(name, "public")
    && ((exists w | w in SENSITIVE :: Mentions(name, w)) || Reads(name, "body") || Reads(name, "raw")
        || (|name| >= 3 && SaysAt(name, "key", 0)))
  }

  // ---------------------------------------------------------------- redaction of a value

  /** `redact`: texts are scrubbed, fields of sensitive names masked, and what lies too deep is cut. */
  function Redact(v: Json, depth: nat): Json
    decreases v
  {
    match v
    case Text(s) => Text(Scrub(s))
    case List(items) =>
      if depth >= MAX_DEPTH then Text(TOO_DEEP)
      else List(seq(|items|, i requires 0 <= i < |items| => Redact(items[i], depth + 1)))
    case Object(fields) =>
      if depth >= MAX_DEPTH then Text(TOO_DEEP)
      else Object(seq(|fields|, i requires 0 <= i < |fields| => RedactField(fields[i], depth + 1)))
    case _ => v
  }

  function RedactField(f: Field, depth: nat): Field
    decreases f
  {
    Field(f.name, if Sensitive(f.name) then Text(REDACTED) else Redact(f.value, depth))
  }

  /** What writing a response does to it: only lists and objects are redacted. */
  function Persisted(v: Json): Json { if v.List? || v.Object? then Redact(v, 0) else v }

  /** No text in the value, at any depth, holds a seed or a bearer token. */
  ghost predicate AllClean(v: Json)
    decreases v
  {
    match v
    case Text(s) => Clean(s)
    case List(items) => forall i | 0 <= i < |items| :: AllClean(items[i])
    case Object(fields) => forall i | 0 <= i < |fields| :: AllClean(fields[i].value)
    case _ => true
  }

  /** Scrubbed text is clean, whatever it was. */
  lemma ScrubCleans(s: string)
    ensures Clean(Scrub(s))
  {
    if LooksLikeSecret(s) { RedactedIsClean(); } else { ScrubbedIsClean(s); }
  }

  lemma MasksAreClean()
    ensures AllClean(Text(TOO_DEEP)) && AllClean(Text(REDACTED))
  {
    TooDeepStays();
    ScrubCleans(TOO_DEEP);
    RedactedIsClean();
  }

  lemma ListClean(items: seq<Json>, depth: nat)
    requires depth < MAX_DEPTH && forall i | 0 <= i < |items| :: AllClean(Redact(items[i], depth + 1))
    ensures AllClean(Redact(List(items), depth))
  {
  }

  lemma FieldsClean(fields: seq<Field>, depth: nat)
    requires depth < MAX_DEPTH && AllClean(Text(REDACTED))
    requires forall i | 0 <= i < |fields| :: AllClean(Redact(fields[i].value, depth + 1))
    ensures AllClean(Redact(Object(fields), depth))
  {
    var y := Redact(Object(fields), depth);
    forall i | 0 <= i < |fields| ensures AllClean(y.fields[i].value) {
      assert y.fields[i] == RedactField(fields[i], depth + 1);
    }
  }

  /** No text in a redacted value holds a seed or a bearer token. */
  lemma {:induction false} RedactedHoldsNoSecret(v: Json, depth: nat)
    ensures AllClean(Redact(v, depth))
    decreases v
  {
    MasksAreClean();
    match v
    case Text(s) => ScrubCleans(s);
    case List(items) =>
      forall i | 0 <= i < |items| ensures AllClean(Redact(items[i], depth + 1)) { RedactedHoldsNoSecret(items[i], depth + 1); }
      if depth < MAX_DEPTH { ListClean(items, depth); }
    case Object(fields) =>
      forall i | 0 <= i < |fields| ensures AllClean(Redact(fields[i].value, depth + 1)) {
        RedactedHoldsNoSecret(fields[i].value, depth + 1);
      }
      if depth < MAX_DEPTH { FieldsClean(fields, depth); }
    case _ =>
  }

  // ---------------------------------------------------------------- when redacting again changes nothing

  /** The scrubbed text does not itself look like a secret, and is not too long to scan or is cut already. */
  predicate SteadyText(s: string)
  {
    var y := Scrub(s);
    !LooksLikeSecret(y) && (|y| <= SCANNABLE || y[SCANNABLE..] == TRUNCATED)
  }

  /** Every text that redaction keeps is steady. */
  predicate Steady(v: Json, depth: nat)
    decreases v
  {
    match v
    case Text(s) => SteadyText(s)
    case List(items) => depth >= MAX_DEPTH || forall i | 0 <= i < |items| :: Steady(items[i], depth + 1)
    case Object(fields) => depth >= MAX_DEPTH || forall i | 0 <= i < |fields| :: SteadyField(fields[i], depth + 1)
    case _ => true
  }

  predicate SteadyField(f: Field, depth: nat)
    decreases f
  {
    Sensitive(f.name) || Steady(f.value, depth)
  }

  predicate NoB(s: string) { forall i | 0 <= i < |s| :: Lower(s[i]) != 'b' }

  lemma NoBearerWithoutB(s: string, i: nat)
    requires NoB(s) && i <= |s|
    ensures !BearerAt(s[i..])
  {
    if i < |s| { assert s[i..][0] == s[i]; }
  }

  /** Short text with no b in it has nothing to scrub, unless it looks like a secret. */
  lemma NothingToScrub(s: string)
    requires |s| < 56 && NoB(s) && !LooksLikeSecret(s)
    ensures Scrub(s) == s
  {
    forall i | 0 <= i <= |s| ensures !BearerAt(s[i..]) { NoBearerWithoutB(s, i); }
    CleanUnchanged(s);
  }

  lemma TooDeepHasNoB()
    ensures NoB(TOO_DEEP)
  {
  }

  lemma TooDeepStays()
    ensures Scrub(TOO_DEEP) == TOO_DEEP
  {
    TooDeepHasNoB();
    NothingToScrub(TOO_DEEP);
  }

  /** Redacting a redacted value changes nothing exactly when every text kept in it is steady. */
  lemma {:induction false} RedactTwiceExactly(v: Json, depth: nat)
    ensures Redact(Redact(v, depth), depth) == Redact(v, depth) <==> Steady(v, depth)
    decreases v
  {
    match v
    case Text(s) => ScrubStableExactly(s);
    case List(items) =>
      if depth >= MAX_DEPTH {
        TooDeepStays();
      } else {
        forall i | 0 <= i < |items|
          ensures Redact(Redact(items[i], depth + 1), depth + 1) == Redact(items[i], depth + 1) <==> Steady(items[i], depth + 1)
        {
          RedactTwiceExactly(items[i], depth + 1);
        }
        ListTwice(items, depth);
      }
    case Object(fields) =>
      if depth >= MAX_DEPTH {
        TooDeepStays();
      } else {
        forall i | 0 <= i < |fields|
          ensures RedactField(RedactField(fields[i], depth + 1), depth + 1) == RedactField(fields[i], depth + 1)
                  <==> SteadyField(fields[i], depth + 1)
        {
          RedactTwiceExactly(fields[i].value, depth + 1);
        }
        FieldsTwice(fields, depth);
      }
    case _ =>
  }

  lemma ListTwice(items: seq<Json>, depth: nat)
    requires depth < MAX_DEPTH
    ensures var y := Redact(List(items), depth);
      Redact(y, depth) == y <==>
      forall i | 0 <= i < |items| :: Redact(Redact(items[i], depth + 1), depth + 1) == Redact(items[i], depth + 1)
  {
    var y := Redact(List(items), depth);
    assert forall i | 0 <= i < |items| :: Redact(y, depth).items[i] == Redact(Redact(items[i], depth + 1), depth + 1);
  }

  lemma FieldsTwice(fields: seq<Field>, depth: nat)
    requires depth < MAX_DEPTH
    ensures var y := Redact(Object(fields), depth);
      Redact(y, depth) == y <==>
      forall i | 0 <= i < |fields| :: RedactField(RedactField(fields[i], depth + 1), depth + 1) == RedactField(fields[i], depth + 1)
  {
    var y := Redact(Object(fields), depth);
    assert forall i | 0 <= i < |fields| :: Redact(y, depth).fields[i] == RedactField(RedactField(fields[i], depth + 1), depth + 1);
  }

  /** A stored response is kept as it was stored: it is a bare value, or every text kept in it is steady. */
  predicate KeptAsStored(v: Json) { (v.List? || v.Object?) ==> Steady(v, 0) }

  lemma PersistTwiceExactly(v: Json)
    ensures Persisted(Persisted(v)) == Persisted(v) <==> KeptAsStored(v)
  {
    RedactTwiceExactly(v, 0);
  }

  // ---------------------------------------------------------------- a response that is not

  lemma WordsAreLonger(w: string)
    requires w in SENSITIVE
    ensures |w| >= 4 && (|w| > 4 || w[0] != 'n')
  {
  }

  /** A field whose name hides nothing. */
  lemma NoteIsPlain()
    ensures !Sensitive("note")
  {
    var name := "note";
    forall w | w in SENSITIVE ensures !Mentions(name, w) { WordsAreLonger(w); }
    assert Lower(name[0]) == 'n' && "raw"[0] == 'r' && "body"[0] == 'b' && "key"[0] == 'k';
  }

  /** An object with a long bearer token after an S in one of its fields. */
  function TokenNote(token: string): Json { Note(['S', ' '] + (BEARER + token)) }

  function Note(s: string): Json { Object([Field("note", Text(s))]) }

  lemma OneField(name: string, s: string)
    requires !Sensitive(name)
    ensures Persisted(Object([Field(name, Text(s))])) == Object([Field(name, Text(Scrub(s)))])
  {
    assert RedactField(Field(name, Text(s)), 1) == Field(name, Text(Scrub(s)));
  }

  lemma TokenNotePersisted(token: string)
    requires 120 <= |token| <= SCANNABLE - 9 && Lowercase(token)
    ensures Persisted(TokenNote(token)) == Note(['S', ' '] + REDACTED)
    ensures Persisted(Persisted(TokenNote(token))) == Note(REDACTED)
  {
    NoteIsPlain();
    TokenAfterS(token);
    OneField("note", ['S', ' '] + (BEARER + token));
    OneField("note", ['S', ' '] + REDACTED);
  }
}
