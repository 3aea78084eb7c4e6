/** Redaction of evidence and the hash-linked audit log built on it (src/unraid_updater/evidence.py). */
module Evidence {
  import opened Strings

  /** How JSON writes a number, with the three words Python adds for floats that are no numbers. */
  predicate IsNumeral(s: string) {
    || s in {"NaN", "Infinity", "-Infinity"}
    || (s != "" && (s[0] == '-' || IsDigit(s[0])) && forall c :: c in s ==> c in "0123456789+-.eE")
  }

  type Numeral = s: string | IsNumeral(s) witness "0"

  datatype Json =
    | Null
    | Bool(b: bool)
    | Number(text: Numeral)
    | Text(s: string)
    | Array(items: seq<Json>)
    | Tuple(items: seq<Json>)              // a Python tuple, written as an array
    | Object(fields: map<string, Json>)

  type Record = map<string, Json>

  const REDACTED := Text("[REDACTED]")

  // ---------------------------------------------------------------- secret keys

  /** Case folding of the secret pattern: ASCII, and the four other letters that match `s`, `k`, `i`
      when case is ignored. */
  function Fold(c: char): char {
    if c == '\U{017F}' then 's'
    else if c == '\U{212A}' then 'k'
    else if c == '\U{0130}' || c == '\U{0131}' then 'i'
    else LowerChar(c)
  }

  predicate OccursAt(key: string, word: string, i: nat) {
    i + |word| <= |key| && forall j :: 0 <= j < |word| ==> Fold(key[i + j]) == word[j]
  }

  predicate Occurs(key: string, word: string) {
    exists i :: 0 <= i <= |key| && OccursAt(key, word, i)
  }

  predicate IsSecret(key: string) {
    || Occurs(key, "password") || Occurs(key, "passwd") || Occurs(key, "secret") || Occurs(key, "token")
    || Occurs(key, "apikey") || Occurs(key, "api_key") || Occurs(key, "api-key")
    || Occurs(key, "authorization") || Occurs(key, "cookie") || Occurs(key, "credential")
  }

  lemma NeedsLetter(key: string, word: string, j: nat)
    requires j < |word| && forall i :: 0 <= i < |key| ==> Fold(key[i]) != word[j]
    ensures !Occurs(key, word)
  {
    forall i | 0 <= i <= |key| ensures !OccursAt(key, word, i) {
      if i + |word| <= |key| {
        assert Fold(key[i + j]) != word[j];
      }
    }
  }

  const PREV_HASH := "prev_hash"
  const EVENT_HASH := "event_hash"

  /** The log's own keys are never redacted. */
  lemma LinkKeysArePublic()
    ensures !IsSecret(PREV_HASH) && !IsSecret(EVENT_HASH)
  {
    PublicKey(PREV_HASH);
    PublicKey(EVENT_HASH);
  }

  lemma PublicKey(key: string)
    requires key == PREV_HASH || key == EVENT_HASH
    ensures !IsSecret(key)
  {
    hide Occurs;
    NeedsLetter(key, "password", 5);
    NeedsLetter(key, "passwd", 5);
    NeedsLetter(key, "secret", 2);
    NeedsLetter(key, "token", 1);
    NeedsLetter(key, "apikey", 3);
    NeedsLetter(key, "api_key", 4);
    NeedsLetter(key, "api-key", 4);
    NeedsLetter(key, "authorization", 1);
    NeedsLetter(key, "cookie", 0);
    NeedsLetter(key, "credential", 0);
  }

  // ---------------------------------------------------------------- which keys are secret

  const SECRET_WORDS := ["password", "passwd", "secret", "token", "apikey", "api_key", "api-key", "authorization",
    "cookie", "credential"]

  /** The same letter when case is ignored; four letters beyond ASCII match ones within. */
  predicate SameLetter(c: char, d: char) {
    || c == d
    || ('a' <= d <= 'z' && c as int == d as int - 32)
    || (c == '\U{017F}' && d == 's') || (c == '\U{212A}' && d == 'k')
    || (c == '\U{0130}' && d == 'i') || (c == '\U{0131}' && d == 'i')
  }

  predicate SameWord(s: string, word: string) {
    |s| == |word| && forall i :: 0 <= i < |s| ==> SameLetter(s[i], word[i])
  }

  /** The key has the word in it, in whatever case. */
  ghost predicate Tells(key: string, word: string) {
    exists before, s, after :: Around(key, before, s, after) && SameWord(s, word)
  }

  predicate Around(key: string, before: string, s: string, after: string) {
    key == before + s + after
  }

  /** The key has one of the words in it. */
  ghost predicate Telling(key: string) {
    exists w :: 0 <= w < |SECRET_WORDS| && Tells(key, SECRET_WORDS[w])
  }

  lemma FoldedLetter(c: char, d: char)
    requires 'a' <= d <= 'z' || d == '_' || d == '-'
    ensures Fold(c) == d <==> SameLetter(c, d)
  {
  }

  lemma OccursTells(key: string, word: string)
    requires PlainWord(word) && Occurs(key, word)
    ensures Tells(key, word)
  {
    hide Fold, SameLetter;
    var i :| 0 <= i <= |key| && OccursAt(key, word, i);
    var before, s, after := key[..i], key[i..i + |word|], key[i + |word|..];
    forall j | 0 <= j < |s| ensures SameLetter(s[j], word[j]) {
      FoldedLetter(s[j], word[j]);
    }
    assert Around(key, before, s, after) && SameWord(s, word);
  }

  lemma TellsOccurs(key: string, word: string)
    requires PlainWord(word) && Tells(key, word)
    ensures Occurs(key, word)
  {
    hide Fold, SameLetter;
    var before, s, after :| Around(key, before, s, after) && SameWord(s, word);
    forall j | 0 <= j < |word| ensures Fold(key[|before| + j]) == word[j] {
      assert key[|before| + j] == s[j];
      FoldedLetter(s[j], word[j]);
    }
    assert OccursAt(key, word, |before|);
  }

  predicate PlainWord(word: string) {
    forall i :: 0 <= i < |word| ==> 'a' <= word[i] <= 'z' || word[i] == '_' || word[i] == '-'
  }

  lemma WordsArePlain(w: nat)
    requires w < |SECRET_WORDS|
    ensures PlainWord(SECRET_WORDS[w])
  {
  }

  lemma SecretIsTelling(key: string)
    ensures IsSecret(key) <==> Telling(key)
  {
    hide Occurs, Tells, PlainWord, SECRET_WORDS, IsSecret;
    forall w: nat | w < |SECRET_WORDS| ensures Occurs(key, SECRET_WORDS[w]) <==> Tells(key, SECRET_WORDS[w]) {
      WordsArePlain(w);
      if Occurs(key, SECRET_WORDS[w]) {
        OccursTells(key, SECRET_WORDS[w]);
      }
      if Tells(key, SECRET_WORDS[w]) {
        TellsOccurs(key, SECRET_WORDS[w]);
      }
    }
    SecretByWord(key);
  }

  lemma SecretByWord(key: string)
    ensures IsSecret(key) <==> exists w :: 0 <= w < |SECRET_WORDS| && Occurs(key, SECRET_WORDS[w])
  {
    hide Occurs;
    var ws := SECRET_WORDS;
    assert ws[0] == "password" && ws[1] == "passwd" && ws[2] == "secret" && ws[3] == "token" && ws[4] == "apikey"
           && ws[5] == "api_key" && ws[6] == "api-key" && ws[7] == "authorization" && ws[8] == "cookie"
           && ws[9] == "credential";
  }

  // ---------------------------------------------------------------- redaction

  function Redact(j: Json): Json {
    match j
    case Array(items) => Array(seq(|items|, i requires 0 <= i < |items| => Redact(items[i])))
    case Tuple(items) => Array(seq(|items|, i requires 0 <= i < |items| => Redact(items[i])))
    case Object(fields) => Object(map k | k in fields :: if IsSecret(k) then REDACTED else Redact(fields[k]))
    case _ => j
  }

  function RedactRecord(r: Record): Record {
    Redact(Object(r)).fields
  }

  lemma {:induction false} RedactTwice(j: Json)
    ensures Redact(Redact(j)) == Redact(j)
  {
    hide IsSecret;
    match j
    case Array(items) =>
      forall i | 0 <= i < |items| ensures Redact(Redact(items[i])) == Redact(items[i]) { RedactTwice(items[i]); }
      assert Redact(Redact(j)).items == Redact(j).items;
    case Tuple(items) =>
      forall i | 0 <= i < |items| ensures Redact(Redact(items[i])) == Redact(items[i]) { RedactTwice(items[i]); }
      assert Redact(Redact(j)).items == Redact(j).items;
    case Object(fields) =>
      forall k | k in fields ensures Redact(Redact(fields[k])) == Redact(fields[k]) { RedactTwice(fields[k]); }
      assert Redact(Redact(j)).fields == Redact(j).fields;
    case _ =>
  }

  /** Two values that differ at most below telling keys, at any depth, and in tuple against list. */
  ghost predicate SamePublic(a: Json, b: Json) {
    if (a.Array? || a.Tuple?) && (b.Array? || b.Tuple?) then
      |a.items| == |b.items| && forall i :: 0 <= i < |a.items| ==> SamePublic(a.items[i], b.items[i])
    else if a.Object? && b.Object? then
      a.fields.Keys == b.fields.Keys
      && forall k :: k in a.fields && !Telling(k) ==> SamePublic(a.fields[k], b.fields[k])
    else a == b
  }

  /** Redaction hides exactly what stands below secret keys. */
  lemma {:induction false} RedactionsAgree(a: Json, b: Json)
    ensures Redact(a) == Redact(b) <==> SamePublic(a, b)
    decreases a
  {
    hide IsSecret, Telling;
    if (a.Array? || a.Tuple?) && (b.Array? || b.Tuple?) {
      hide *;
      if |a.items| == |b.items| {
        forall i | 0 <= i < |a.items|
          ensures Redact(a.items[i]) == Redact(b.items[i]) <==> SamePublic(a.items[i], b.items[i])
        {
          RedactionsAgree(a.items[i], b.items[i]);
        }
      }
      ItemsAgree(a, b);
    } else if a.Object? && b.Object? {
      hide *;
      forall k | k in a.fields && k in b.fields
        ensures Redact(a.fields[k]) == Redact(b.fields[k]) <==> SamePublic(a.fields[k], b.fields[k])
      {
        RedactionsAgree(a.fields[k], b.fields[k]);
      }
      FieldsAgree(a, b);
    }
  }

  lemma {:induction false} ItemsAgree(a: Json, b: Json)
    requires (a.Array? || a.Tuple?) && (b.Array? || b.Tuple?)
    requires |a.items| == |b.items| ==> forall i :: 0 <= i < |a.items| ==>
               (Redact(a.items[i]) == Redact(b.items[i]) <==> SamePublic(a.items[i], b.items[i]))
    ensures Redact(a) == Redact(b) <==> SamePublic(a, b)
  {
    var x, y := Redact(a).items, Redact(b).items;
    assert |x| == |a.items| && |y| == |b.items|;
    assert forall i :: 0 <= i < |x| ==> x[i] == Redact(a.items[i]);
    assert forall i :: 0 <= i < |y| ==> y[i] == Redact(b.items[i]);
    if SamePublic(a, b) {
      assert x == y;
    } else if |x| == |y| {
      var i :| 0 <= i < |x| && !SamePublic(a.items[i], b.items[i]);
      assert x[i] != y[i];
    }
  }

  lemma {:induction false} FieldsAgree(a: Json, b: Json)
    requires a.Object? && b.Object?
    requires forall k :: k in a.fields && k in b.fields ==>
               (Redact(a.fields[k]) == Redact(b.fields[k]) <==> SamePublic(a.fields[k], b.fields[k]))
    ensures Redact(a) == Redact(b) <==> SamePublic(a, b)
  {
    hide IsSecret, Telling;
    forall k: string ensures IsSecret(k) <==> Telling(k) {
      SecretIsTelling(k);
    }
    var x, y := Redact(a).fields, Redact(b).fields;
    assert x.Keys == a.fields.Keys && y.Keys == b.fields.Keys;
    if SamePublic(a, b) {
      assert x == y;
    } else if x.Keys == y.Keys {
      var k :| k in a.fields && !Telling(k) && !SamePublic(a.fields[k], b.fields[k]);
      assert x[k] != y[k];
    }
  }

  // ---------------------------------------------------------------- what redaction conceals and shows

  /** Nothing shows below a telling key, at any depth. */
  ghost predicate Concealed(j: Json) {
    match j
    case Array(items) => forall i :: 0 <= i < |items| ==> Concealed(items[i])
    case Tuple(items) => forall i :: 0 <= i < |items| ==> Concealed(items[i])
    case Object(fields) => forall k :: k in fields ==>
      if Telling(k) then fields[k] == Text("[REDACTED]") else Concealed(fields[k])
    case _ => true
  }

  /** `b` is `a` with lists for tuples, and without what stands below telling keys. */
  ghost predicate ShowsTheRest(a: Json, b: Json) {
    match a
    case Array(items) => b.Array? && |b.items| == |items| && forall i :: 0 <= i < |items| ==>
      ShowsTheRest(items[i], b.items[i])
    case Tuple(items) => b.Array? && |b.items| == |items| && forall i :: 0 <= i < |items| ==>
      ShowsTheRest(items[i], b.items[i])
    case Object(fields) => b.Object? && b.fields.Keys == fields.Keys && forall k :: k in fields && !Telling(k) ==>
      ShowsTheRest(fields[k], b.fields[k])
    case _ => b == a
  }

  /** Redaction conceals what stands below every telling key, at any depth, and shows all the rest. */
  lemma {:induction false} RedactionConceals(j: Json)
    ensures Concealed(Redact(j)) && ShowsTheRest(j, Redact(j))
  {
    hide IsSecret, Telling;
    match j
    case Array(items) =>
      forall i | 0 <= i < |items| ensures Concealed(Redact(items[i])) && ShowsTheRest(items[i], Redact(items[i])) {
        RedactionConceals(items[i]);
      }
    case Tuple(items) =>
      forall i | 0 <= i < |items| ensures Concealed(Redact(items[i])) && ShowsTheRest(items[i], Redact(items[i])) {
        RedactionConceals(items[i]);
      }
    case Object(fields) =>
      forall k | k in fields ensures Concealed(Redact(fields[k])) && ShowsTheRest(fields[k], Redact(fields[k])) {
        RedactionConceals(fields[k]);
      }
      forall k: string ensures IsSecret(k) <==> Telling(k) {
        SecretIsTelling(k);
      }
    case _ =>
  }

  // ---------------------------------------------------------------- the audit chain

  /** The digest of a record's canonical JSON text, and the text of a value that is not a string. */
  datatype Codec = Codec(digest: Record -> string, render: Json -> string)

  /** A digest without collisions among redacted records, and never empty. */
  ghost predicate CollisionFree(c: Codec) {
    && (forall a, b :: c.digest(RedactRecord(a)) == c.digest(RedactRecord(b)) ==> RedactRecord(a) == RedactRecord(b))
    && (forall a :: c.digest(RedactRecord(a)) != "")
  }

  // ---------------------------------------------------------------- such a digest exists

  /** A writing of texts, of values and of records that can be read back, whatever follows it. */
  function WriteText(s: string): string {
    if s == [] then "." else ['-', s[0]] + WriteText(s[1..])
  }

  ghost function Write(j: Json): string
    decreases j, 1, 0
  {
    match j
    case Null => "n"
    case Bool(b) => if b then "t" else "f"
    case Number(text) => "d" + WriteText(text)
    case Text(s) => "s" + WriteText(s)
    case Array(_) => "[" + WriteItems(j, 0)
    case Tuple(_) => "(" + WriteItems(j, 0)
    case Object(fields) => "{" + WriteFields(j, fields.Keys)
  }

  ghost function WriteItems(j: Json, from: nat): string
    requires (j.Array? || j.Tuple?) && from <= |j.items|
    decreases j, 0, |j.items| - from
  {
    if from == |j.items| then "]" else "," + Write(j.items[from]) + WriteItems(j, from + 1)
  }

  ghost function WriteFields(j: Json, keys: set<string>): string
    requires j.Object? && keys <= j.fields.Keys
    decreases j, 0, |keys|
  {
    if keys == {} then "}"
    else
      var k :| k in keys;
      ":" + WriteText(k) + Write(j.fields[k]) + WriteFields(j, keys - {k})
  }

  lemma {:induction false} TextReadsBack(a: string, s: string, b: string, t: string)
    requires WriteText(a) + s == WriteText(b) + t
    ensures a == b && s == t
  {
    var x, y := WriteText(a) + s, WriteText(b) + t;
    assert x[0] == WriteText(a)[0] && y[0] == WriteText(b)[0];
    if a == [] || b == [] {
      assert x[1..] == s && y[1..] == t;
    } else {
      assert x[1] == a[0] && y[1] == b[0];
      assert x[2..] == WriteText(a[1..]) + s && y[2..] == WriteText(b[1..]) + t;
      TextReadsBack(a[1..], s, b[1..], t);
      assert a == [a[0]] + a[1..] && b == [b[0]] + b[1..];
    }
  }

  lemma Tail(head: char, a: string, s: string)
    ensures (([head] + a) + s)[0] == head && (([head] + a) + s)[1..] == a + s
  {
  }

  lemma Regroup(head: char, a: string, b: string, c: string, s: string)
    ensures ([head] + a + b + c) + s == [head] + (a + (b + (c + s)))
  {
    assert ([head] + a + b + c) + s == ([head] + a + b) + (c + s) == ([head] + a) + (b + (c + s));
  }

  lemma SameHead(head: char, a: string, b: string)
    requires [head] + a == [head] + b
    ensures a == b
  {
    assert a == ([head] + a)[1..] && b == ([head] + b)[1..];
  }

  lemma {:induction false} ReadsBack(a: Json, s: string, b: Json, t: string)
    requires Write(a) + s == Write(b) + t
    ensures a == b && s == t
    decreases a, 1, 0
  {
    hide WriteText, WriteItems, WriteFields;
    Tail(Write(a)[0], Write(a)[1..], s);
    Tail(Write(b)[0], Write(b)[1..], t);
    assert Write(a) == [Write(a)[0]] + Write(a)[1..] && Write(b) == [Write(b)[0]] + Write(b)[1..];
    assert Write(a)[0] == Write(b)[0];
    match a {
      case Null =>
      case Bool(_) =>
      case Number(x) => TextReadsBack(x, s, b.text, t);
      case Text(x) => TextReadsBack(x, s, b.s, t);
      case Array(_) => ItemsReadBack(a, 0, s, b, t);
      case Tuple(_) => ItemsReadBack(a, 0, s, b, t);
      case Object(_) => FieldsReadBack(a, a.fields.Keys, s, b, b.fields.Keys, t);
    }
  }

  lemma {:induction false} ItemsReadBack(a: Json, from: nat, s: string, b: Json, t: string)
    requires (a.Array? || a.Tuple?) && (b.Array? || b.Tuple?) && from <= |a.items| && from <= |b.items|
    requires WriteItems(a, from) + s == WriteItems(b, from) + t
    ensures a.items[from..] == b.items[from..] && s == t
    decreases a, 0, |a.items| - from
  {
    hide Write;
    assert (WriteItems(a, from) + s)[0] == WriteItems(a, from)[0]
           && (WriteItems(b, from) + t)[0] == WriteItems(b, from)[0];
    if from == |a.items| {
      SameHead(']', s, t);
    } else {
      var x, y := WriteItems(a, from + 1), WriteItems(b, from + 1);
      Regroup(',', Write(a.items[from]), x, "", s);
      Regroup(',', Write(b.items[from]), y, "", t);
      EmptyMiddle([','] + Write(a.items[from]) + x, x, s);
      EmptyMiddle([','] + Write(b.items[from]) + y, y, t);
      SameHead(',', Write(a.items[from]) + (x + s), Write(b.items[from]) + (y + t));
      ReadsBack(a.items[from], x + s, b.items[from], y + t);
      ItemsReadBack(a, from + 1, s, b, t);
      assert a.items[from..] == [a.items[from]] + a.items[from + 1..];
      assert b.items[from..] == [b.items[from]] + b.items[from + 1..];
    }
  }

  lemma EmptyMiddle(whole: string, x: string, s: string)
    ensures whole + "" == whole && x + ("" + s) == x + s
  {
    assert "" + s == s;
  }

  lemma {:induction false} FieldsReadBack(a: Json, keys: set<string>, s: string, b: Json, others: set<string>,
                                          t: string)
    requires a.Object? && b.Object? && keys <= a.fields.Keys && others <= b.fields.Keys
    requires WriteFields(a, keys) + s == WriteFields(b, others) + t
    ensures keys == others && s == t && forall k :: k in keys ==> a.fields[k] == b.fields[k]
    decreases a, 0, |keys|
  {
    hide Write, WriteText, WriteFields;
    FieldsStart(a, keys, s);
    FieldsStart(b, others, t);
    if keys == {} {
      SameHead('}', s, t);
    } else {
      var k, restA := FirstField(a, keys);
      var l, restB := FirstField(b, others);
      Regroup(':', WriteText(k), Write(a.fields[k]), restA, s);
      Regroup(':', WriteText(l), Write(b.fields[l]), restB, t);
      SameHead(':', WriteText(k) + (Write(a.fields[k]) + (restA + s)),
        WriteText(l) + (Write(b.fields[l]) + (restB + t)));
      TextReadsBack(k, Write(a.fields[k]) + (restA + s), l, Write(b.fields[l]) + (restB + t));
      ReadsBack(a.fields[k], restA + s, b.fields[l], restB + t);
      FieldsReadBack(a, keys - {k}, s, b, others - {k}, t);
      assert keys == (keys - {k}) + {k} && others == (others - {k}) + {k};
    }
  }

  lemma FieldsStart(j: Json, keys: set<string>, s: string)
    requires j.Object? && keys <= j.fields.Keys
    ensures WriteFields(j, keys) + s != "" && (WriteFields(j, keys) + s)[0] == if keys == {} then '}' else ':'
    ensures keys == {} ==> WriteFields(j, keys) + s == ['}'] + s
  {
    hide Write, WriteText;
    if keys != {} {
      var k, rest := FirstField(j, keys);
    }
  }

  lemma FirstField(j: Json, keys: set<string>) returns (k: string, rest: string)
    requires j.Object? && keys <= j.fields.Keys && keys != {}
    ensures k in keys && rest == WriteFields(j, keys - {k})
    ensures WriteFields(j, keys) == ":" + WriteText(k) + Write(j.fields[k]) + rest
  {
    hide Write, WriteText;
    k :| k in keys && WriteFields(j, keys) == ":" + WriteText(k) + Write(j.fields[k]) + WriteFields(j, keys - {k});
    rest := WriteFields(j, keys - {k});
  }

  /** The assumption can be met: writing a record out is a digest without collisions. */
  lemma SomeDigestIsCollisionFree()
    ensures exists c :: CollisionFree(c)
  {
    hide Write, RedactRecord;
    var c := Codec((r: Record) => Write(Object(r)), (j: Json) => Write(j));
    forall a, b | c.digest(RedactRecord(a)) == c.digest(RedactRecord(b)) ensures RedactRecord(a) == RedactRecord(b) {
      var x, y := Object(RedactRecord(a)), Object(RedactRecord(b));
      assert Write(x) + "" == Write(x) && Write(y) + "" == Write(y);
      ReadsBack(x, "", y, "");
    }
    forall a ensures c.digest(RedactRecord(a)) != "" {
      WritesSomething(Object(RedactRecord(a)));
    }
    assert CollisionFree(c);
  }

  lemma WritesSomething(j: Json)
    ensures Write(j) != ""
  {
  }

  // ---------------------------------------------------------------- the log

  function HashRecord(c: Codec, r: Record): string {
    c.digest(RedactRecord(r))
  }

  function Get(r: Record, key: string, default: Json): Json {
    if key in r then r[key] else default
  }

  function AsText(c: Codec, j: Json): string {
    if j.Text? then j.s else c.render(j)
  }

  function FinalHash(c: Codec, log: seq<Record>): string {
    if log == [] then "" else AsText(c, Get(log[|log| - 1], EVENT_HASH, Text("")))
  }

  /** One record's link to the hash before it, and its own hash. */
  predicate Linked(c: Codec, previous: string, r: Record) {
    && Get(r, PREV_HASH, Text("")) == Text(previous)
    && EVENT_HASH in r && r[EVENT_HASH] == Text(HashRecord(c, r - {EVENT_HASH}))
  }

  predicate Verifies(c: Codec, log: seq<Record>) {
    log == [] ||
    (Verifies(c, log[..|log| - 1]) && Linked(c, FinalHash(c, log[..|log| - 1]), log[|log| - 1]))
  }

  /** The record `append_audit` builds. */
  function NewRecord(c: Codec, previous: string, value: Record): Record {
    var linked := RedactRecord(value)[PREV_HASH := Text(previous)];
    linked[EVENT_HASH := Text(HashRecord(c, linked))]
  }

  /** The log after appending `value`; lines are redacted once more when written. */
  function Appended(c: Codec, log: seq<Record>, value: Record): seq<Record> {
    log + [RedactRecord(NewRecord(c, FinalHash(c, log), value))]
  }

  class AuditLog {
    var records: seq<Record>

    method Append(c: Codec, value: Record) returns (r: Record)
      modifies this
      ensures records == Appended(c, old(records), value)
      ensures r == NewRecord(c, FinalHash(c, old(records)), value)
      ensures |records| == |old(records)| + 1 && Concealed(Object(records[|old(records)|]))
    {
      AppendedConceals(c, records, value);
      hide RedactRecord;
      var previous := "";
      if records != [] {
        previous := AsText(c, Get(records[|records| - 1], EVENT_HASH, Text("")));
      }
      r := RedactRecord(value);
      r := r[PREV_HASH := Text(previous)];
      r := r[EVENT_HASH := Text(HashRecord(c, r))];
      records := records + [RedactRecord(r)];
    }

    method Verify(c: Codec) returns (ok: bool)
      ensures ok == Verifies(c, records)
    {
      hide HashRecord;
      var previous := "";
      var i := 0;
      while i < |records|
        invariant 0 <= i <= |records|
        invariant Verifies(c, records[..i]) && previous == FinalHash(c, records[..i])
      {
        var r := records[i];
        assert records[..i + 1][..i] == records[..i];
        if Get(r, PREV_HASH, Text("")) != Text(previous) {
          PrefixVerifies(c, records, i + 1);
          return false;
        }
        if EVENT_HASH !in r || r[EVENT_HASH] != Text(HashRecord(c, r - {EVENT_HASH})) {
          PrefixVerifies(c, records, i + 1);
          return false;
        }
        previous := r[EVENT_HASH].s;
        i := i + 1;
      }
      assert records[..i] == records;
      return true;
    }
  }

  /** What one append writes: the record as given, but for what stands below telling keys, linked to the
      hash before it; nothing below a telling key is written at any depth. */
  lemma AppendedConceals(c: Codec, log: seq<Record>, value: Record)
    ensures var later := Appended(c, log, value);
            && |later| == |log| + 1 && later[..|log|] == log
            && var last := later[|log|];
               && Concealed(Object(last))
               && last.Keys == value.Keys + {PREV_HASH, EVENT_HASH}
               && last[PREV_HASH] == Text(FinalHash(c, log))
               && (forall k :: k in value && k !in {PREV_HASH, EVENT_HASH} && !Telling(k) ==>
                     ShowsTheRest(value[k], last[k]))
  {
    hide IsSecret, Telling, FinalHash, HashRecord;
    var made := NewRecord(c, FinalHash(c, log), value);
    RedactionConceals(Object(made));
    RecordOfObject(made);
    LinkKeysArePublic();
    LinksAreWritten(c, FinalHash(c, log), value);
    forall k | k in value && k !in {PREV_HASH, EVENT_HASH} && !Telling(k)
      ensures ShowsTheRest(value[k], RedactRecord(made)[k])
    {
      SecretIsTelling(k);
      RedactionConceals(value[k]);
      RedactTwice(value[k]);
    }
  }

  lemma LinksAreWritten(c: Codec, previous: string, value: Record)
    ensures var last := RedactRecord(NewRecord(c, previous, value));
            && last.Keys == value.Keys + {PREV_HASH, EVENT_HASH}
            && last[PREV_HASH] == Text(previous)
            && (forall k :: k in value && k !in {PREV_HASH, EVENT_HASH} && !IsSecret(k) ==>
                  last[k] == Redact(Redact(value[k])))
  {
    hide IsSecret, HashRecord;
    LinkKeysArePublic();
    assert EVENT_HASH != PREV_HASH by { assert |EVENT_HASH| != |PREV_HASH|; }
    RedactedTextStays(NewRecord(c, previous, value), PREV_HASH, previous);
  }

  lemma {:induction false} PrefixVerifies(c: Codec, log: seq<Record>, n: nat)
    requires n <= |log|
    ensures Verifies(c, log) ==> Verifies(c, log[..n])
    decreases |log|
  {
    hide Linked;
    if n == |log| {
      assert log[..n] == log;
    } else {
      PrefixVerifies(c, log[..|log| - 1], n);
      assert log[..|log| - 1][..n] == log[..n];
    }
  }

  /** What a verifying log is, record by record: each names the hash of the one before it, the first the
      empty text, which may also be left out; and each carries the hash of the rest of it. */
  lemma {:induction false} VerifiesRecordByRecord(c: Codec, log: seq<Record>)
    ensures Verifies(c, log) <==> forall i :: 0 <= i < |log| ==> StandsAt(c, log, i)
    decreases |log|
  {
    hide HashRecord, FinalHash;
    if log != [] {
      var front := log[..|log| - 1];
      VerifiesRecordByRecord(c, front);
      forall i | 0 <= i < |front| ensures StandsAt(c, front, i) <==> StandsAt(c, log, i) {
        assert front[i] == log[i] && (i > 0 ==> front[i - 1] == log[i - 1]);
      }
      if forall i :: 0 <= i < |front| ==> StandsAt(c, log, i) {
        LastStands(c, log);
      }
    }
  }

  ghost predicate StandsAt(c: Codec, log: seq<Record>, i: nat)
    requires i < |log|
  {
    var before := if i > 0 && "event_hash" in log[i - 1] then log[i - 1]["event_hash"] else Text("");
    && (if "prev_hash" in log[i] then log[i]["prev_hash"] == before else before == Text(""))
    && "event_hash" in log[i]
    && log[i]["event_hash"] == Text(c.digest(RedactRecord(map k | k in log[i] && k != "event_hash" :: log[i][k])))
  }

  lemma LastStands(c: Codec, log: seq<Record>)
    requires log != [] && (|log| > 1 ==> StandsAt(c, log, |log| - 2))
    ensures Linked(c, FinalHash(c, log[..|log| - 1]), log[|log| - 1]) <==> StandsAt(c, log, |log| - 1)
  {
    hide RedactRecord;
    var last := log[|log| - 1];
    assert last - {EVENT_HASH} == map k | k in last && k != "event_hash" :: last[k];
  }

  lemma RedactedTextStays(r: Record, key: string, text: string)
    requires key in r && r[key] == Text(text) && !IsSecret(key)
    ensures key in RedactRecord(r) && RedactRecord(r)[key] == Text(text)
  {
    hide IsSecret;
    assert Redact(Text(text)) == Text(text);
  }

  lemma RedactRecordTwice(r: Record)
    ensures RedactRecord(RedactRecord(r)) == RedactRecord(r)
    ensures RedactRecord(r).Keys == r.Keys
  {
    RedactTwice(Object(r));
  }

  lemma RedactSplits(r: Record, key: string)
    ensures RedactRecord(r - {key}) == RedactRecord(r) - {key}
  {
    hide IsSecret;
  }

  lemma RedactJoins(r: Record, key: string, text: string)
    requires !IsSecret(key)
    ensures RedactRecord(r[key := Text(text)]) == RedactRecord(r)[key := Text(text)]
  {
    hide IsSecret;
    assert Redact(Text(text)) == Text(text);
  }

  /** Appending to a log that verifies gives a log that verifies exactly when the record brings no
      `event_hash` key of its own: the appender hashes that key, the verifier removes it first. */
  lemma AppendVerifiesExactlyWhen(c: Codec, log: seq<Record>, value: Record)
    requires CollisionFree(c) && Verifies(c, log)
    ensures Verifies(c, Appended(c, log, value)) <==> EVENT_HASH !in value
  {
    hide IsSecret, RedactRecord;
    LinkKeysArePublic();
    var previous := FinalHash(c, log);
    var redacted := RedactRecord(value);
    var linked := redacted[PREV_HASH := Text(previous)];
    var written := RedactRecord(NewRecord(c, previous, value));
    RedactRecordTwice(value);
    RedactJoins(linked, EVENT_HASH, HashRecord(c, linked));
    RedactJoins(redacted, PREV_HASH, previous);
    assert RedactRecord(linked) == linked;
    assert written == linked[EVENT_HASH := Text(HashRecord(c, linked))];
    assert written - {EVENT_HASH} == linked - {EVENT_HASH};
    RedactSplits(linked, EVENT_HASH);
    assert EVENT_HASH != PREV_HASH by { assert |EVENT_HASH| != |PREV_HASH|; }
    var after := Appended(c, log, value);
    assert after[..|after| - 1] == log && after[|after| - 1] == written;
    if EVENT_HASH in value {
      assert EVENT_HASH in linked && EVENT_HASH !in linked - {EVENT_HASH};
      assert HashRecord(c, linked - {EVENT_HASH}) != HashRecord(c, linked);
    } else {
      assert linked - {EVENT_HASH} == linked;
    }
  }

  ghost predicate SameRedactions(a: seq<Record>, b: seq<Record>) {
    |a| == |b| && forall i :: 0 <= i < |a| ==> RedactRecord(a[i]) == RedactRecord(b[i])
  }

  /** Equal hashes of two linked records mean equal redactions and equal predecessors. */
  lemma EqualLinks(c: Codec, p: string, r: Record, q: string, s: Record)
    requires CollisionFree(c) && Linked(c, p, r) && Linked(c, q, s) && r[EVENT_HASH] == s[EVENT_HASH]
    ensures RedactRecord(r) == RedactRecord(s) && p == q
  {
    hide IsSecret, RedactRecord;
    LinkKeysArePublic();
    var r', s' := r - {EVENT_HASH}, s - {EVENT_HASH};
    assert EVENT_HASH != PREV_HASH by { assert |EVENT_HASH| != |PREV_HASH|; }
    assert RedactRecord(r') == RedactRecord(s');
    RedactRecordTwice(r');
    RedactRecordTwice(s');
    if PREV_HASH in r' {
      RedactedTextStays(r', PREV_HASH, p);
      RedactedTextStays(s', PREV_HASH, q);
    }
    RedactJoins(r', EVENT_HASH, r[EVENT_HASH].s);
    RedactJoins(s', EVENT_HASH, s[EVENT_HASH].s);
    assert r'[EVENT_HASH := r[EVENT_HASH]] == r && s'[EVENT_HASH := s[EVENT_HASH]] == s;
  }

  /** Tamper evidence: two verifying logs with the same final hash agree, record by record, in
      everything that redaction shows. */
  lemma {:induction false} SameHashSameLog(c: Codec, a: seq<Record>, b: seq<Record>)
    requires CollisionFree(c) && Verifies(c, a) && Verifies(c, b)
    requires FinalHash(c, a) == FinalHash(c, b)
    ensures SameRedactions(a, b)
    decreases |a|
  {
    hide *;
    NonEmptyHash(c, a);
    NonEmptyHash(c, b);
    if a == [] {
      NothingDiffers(a, b);
    } else {
      var r, s := a[|a| - 1], b[|b| - 1];
      var a', b' := a[..|a| - 1], b[..|b| - 1];
      LastIsLinked(c, a);
      LastIsLinked(c, b);
      EqualLinks(c, FinalHash(c, a'), r, FinalHash(c, b'), s);
      SameHashSameLog(c, a', b');
      RedactionsExtend(a, b);
    }
  }

  lemma NothingDiffers(a: seq<Record>, b: seq<Record>)
    requires a == [] && b == []
    ensures SameRedactions(a, b)
  {
  }

  lemma RedactionsExtend(a: seq<Record>, b: seq<Record>)
    requires a != [] && b != []
    requires SameRedactions(a[..|a| - 1], b[..|b| - 1])
    requires RedactRecord(a[|a| - 1]) == RedactRecord(b[|b| - 1])
    ensures SameRedactions(a, b)
  {
    hide RedactRecord;
    var a', b' := a[..|a| - 1], b[..|b| - 1];
    forall i | 0 <= i < |a| ensures RedactRecord(a[i]) == RedactRecord(b[i]) {
      if i < |a| - 1 {
        assert a[i] == a'[i] && b[i] == b'[i];
      }
    }
  }

  lemma LastIsLinked(c: Codec, log: seq<Record>)
    requires Verifies(c, log) && log != []
    ensures Verifies(c, log[..|log| - 1])
    ensures Linked(c, FinalHash(c, log[..|log| - 1]), log[|log| - 1])
    ensures EVENT_HASH in log[|log| - 1] && log[|log| - 1][EVENT_HASH] == Text(FinalHash(c, log))
  {
    hide HashRecord;
  }

  lemma NonEmptyHash(c: Codec, log: seq<Record>)
    requires CollisionFree(c) && Verifies(c, log)
    ensures FinalHash(c, log) == "" <==> log == []
  {
    hide RedactRecord;
  }

  /** In particular a record of a verifying log cannot be changed anywhere outside secret keys
      without changing the final hash or breaking verification. */
  lemma PublicChangeShows(c: Codec, log: seq<Record>, i: nat, r: Record)
    requires CollisionFree(c) && Verifies(c, log) && i < |log| && !SamePublic(Object(log[i]), Object(r))
    ensures !Verifies(c, log[i := r]) || FinalHash(c, log[i := r]) != FinalHash(c, log)
  {
    hide IsSecret, SamePublic, Redact;
    RedactionsAgree(Object(log[i]), Object(r));
    if Verifies(c, log[i := r]) && FinalHash(c, log[i := r]) == FinalHash(c, log) {
      SameHashSameLog(c, log, log[i := r]);
      assert RedactRecord(log[i]) == RedactRecord(log[i := r][i]);
      RecordsAgree(log[i], r);
    }
  }

  lemma RecordsAgree(a: Record, b: Record)
    requires RedactRecord(a) == RedactRecord(b)
    ensures Redact(Object(a)) == Redact(Object(b))
  {
    hide IsSecret;
  }

  /** Two records have the same hash exactly when they differ at most below secret keys. */
  lemma HashHidesOnlySecrets(c: Codec, a: Record, b: Record)
    requires CollisionFree(c)
    ensures HashRecord(c, a) == HashRecord(c, b) <==> SamePublic(Object(a), Object(b))
  {
    hide IsSecret, SamePublic, Redact;
    RedactionsAgree(Object(a), Object(b));
    RecordOfObject(a);
    RecordOfObject(b);
  }

  lemma RecordOfObject(a: Record)
    ensures Redact(Object(a)) == Object(RedactRecord(a))
  {
    hide IsSecret;
  }
}
