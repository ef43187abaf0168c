/** The event handlers of src/controllers/eventController.ts: the statements
    each one sends to the store and the response it gives. */
module EventController {
  import opened Types
  import opened Sql
  import opened Schema

  /** Keys of the event schemas, in the order zod lists them. */
  datatype Field = Id | Title | Thumbnail | Banner | Description | Resume | Location | Date

  function Key(f: Field): string
  {
    match f
    case Id => "id"
    case Title => "title"
    case Thumbnail => "thumbnail"
    case Banner => "banner"
    case Description => "description"
    case Resume => "resume"
    case Location => "location"
    case Date => "date"
  }

  /** Position of a key in the schema. */
  function Rank(f: Field): nat
  {
    match f
    case Id => 0
    case Title => 1
    case Thumbnail => 2
    case Banner => 3
    case Description => 4
    case Resume => 5
    case Location => 6
    case Date => 7
  }

  /** The JSON body as sent: each string key absent or a string, `id` absent or a number. */
  datatype RawEventBody = RawEventBody(
    id: Option<int>,
    title: Option<string>,
    thumbnail: Option<string>,
    banner: Option<string>,
    description: Option<string>,
    resume: Option<string>,
    location: Option<string>,
    date: Option<string>)

  /** The body `createEvent` gets back from zod. */
  datatype CreateBody = CreateBody(
    title: string,
    thumbnail: Option<string>,
    banner: Option<string>,
    description: Option<string>,
    resume: Option<string>,
    location: Option<string>,
    date: Option<string>)

  /** The body `updateEvent` gets back from zod. */
  datatype UpdateBody = UpdateBody(
    id: int,
    title: Option<string>,
    thumbnail: Option<string>,
    banner: Option<string>,
    description: Option<string>,
    resume: Option<string>,
    location: Option<string>,
    date: Option<string>)

  const TitleChecks: seq<Check> := [NonEmpty, MaxLength(100), Trim]
  const MediaChecks: seq<Check> := [Url]
  const DescriptionChecks: seq<Check> := [MaxLength(1000)]
  const ResumeChecks: seq<Check> := [MaxLength(100)]
  const LocationChecks: seq<Check> := [MaxLength(500)]
  const DateChecks: seq<Check> := []

  /** The create schema; keys outside it are dropped. */
  function ParseCreateBody(raw: RawEventBody, f: Formats): Parsed<CreateBody>
  {
    var title := Required(TitleChecks, raw.title, f);
    var thumbnail := Optional(MediaChecks, raw.thumbnail, f);
    var banner := Optional(MediaChecks, raw.banner, f);
    var description := Optional(DescriptionChecks, raw.description, f);
    var resume := Optional(ResumeChecks, raw.resume, f);
    var location := Optional(LocationChecks, raw.location, f);
    var date := Optional(DateChecks, raw.date, f);
    if title.Valid? && thumbnail.Valid? && banner.Valid? && description.Valid? &&
       resume.Valid? && location.Valid? && date.Valid?
    then Valid(CreateBody(title.value, thumbnail.value, banner.value, description.value,
                          resume.value, location.value, date.value))
    else Invalid
  }

  /** The update schema: `id` is a number of at least 1, every other key optional. */
  function ParseUpdateBody(raw: RawEventBody, f: Formats): Parsed<UpdateBody>
  {
    var title := Optional(TitleChecks, raw.title, f);
    var thumbnail := Optional(MediaChecks, raw.thumbnail, f);
    var banner := Optional(MediaChecks, raw.banner, f);
    var description := Optional(DescriptionChecks, raw.description, f);
    var resume := Optional(ResumeChecks, raw.resume, f);
    var location := Optional(LocationChecks, raw.location, f);
    var date := Optional(DateChecks, raw.date, f);
    if raw.id.Some? && raw.id.value >= 1 &&
       title.Valid? && thumbnail.Valid? && banner.Valid? && description.Valid? &&
       resume.Valid? && location.Valid? && date.Valid?
    then Valid(UpdateBody(raw.id.value, title.value, thumbnail.value, banner.value,
                          description.value, resume.value, location.value, date.value))
    else Invalid
  }

  // ---------------------------------------------------------------------------
  // updateEvent: the sparse UPDATE built from Object.entries(parsedBody)

  /** One `[key, value]` pair of `Object.entries(parsedBody)`. */
  datatype Entry = Entry(key: Field, value: SqlValue)

  /** The value a body holds for an optional key. */
  function FieldValue(b: UpdateBody, k: Field): Option<string>
  {
    match k
    case Id => None
    case Title => b.title
    case Thumbnail => b.thumbnail
    case Banner => b.banner
    case Description => b.description
    case Resume => b.resume
    case Location => b.location
    case Date => b.date
  }

  function Present(k: Field, v: Option<string>): seq<Entry>
  {
    if v.Some? then [Entry(k, Text(v.value))] else []
  }

  /** The optional keys of the update schema, in declaration order. */
  const OptionalFields: seq<Field> := [Title, Thumbnail, Banner, Description, Resume, Location, Date]

  /** The entries for the keys `ks` that the body holds, in the order of `ks`. */
  function PatchOf(b: UpdateBody, ks: seq<Field>): seq<Entry>
  {
    if ks == [] then [] else Present(ks[0], FieldValue(b, ks[0])) + PatchOf(b, ks[1..])
  }

  /** The entries after `id`: the optional keys the body holds, in schema order. */
  function Patch(b: UpdateBody): seq<Entry>
  {
    PatchOf(b, OptionalFields)
  }

  /** `Object.entries(parsedBody)`: `id` first, then the patch. */
  function Entries(b: UpdateBody): seq<Entry>
  {
    [Entry(Id, Int(b.id))] + Patch(b)
  }

  const UpdateHead := "UPDATE events SET "
  const WhereId := "WHERE id = "

  /** `event_<key> = ?` */
  function Assignment(k: Field): string
  {
    "event_" + Key(k) + " = ?"
  }

  /** What the forEach callback appends for entry i: nothing for `id`,
      otherwise the assignment and a separator chosen by the index. */
  function Piece(es: seq<Entry>, i: nat): string
    requires i < |es|
  {
    if es[i].key == Id then ""
    else Assignment(es[i].key) + (if i == |es| - 1 then " " else ", ")
  }

  /** The text appended by the first n iterations. */
  function SetClause(es: seq<Entry>, n: nat): string
    requires n <= |es|
  {
    if n == 0 then "" else SetClause(es, n - 1) + Piece(es, n - 1)
  }

  /** The parameters pushed by the first n iterations. */
  function SetParams(es: seq<Entry>, n: nat): seq<SqlValue>
    requires n <= |es|
  {
    if n == 0 then []
    else SetParams(es, n - 1) + (if es[n - 1].key == Id then [] else [es[n - 1].value])
  }

  /** The statement the loop over `entries` produces: the SET clause, then
      `WHERE id = ` and the first entry's value spliced into the text. */
  function UpdateFor(es: seq<Entry>): Statement
    requires |es| >= 1
  {
    Statement(UpdateHead + SetClause(es, |es|) + WhereId + Render(es[0].value), SetParams(es, |es|))
  }

  /** The loop of `updateEvent`: walks the entries with a string accumulator
      and a parameter array, then appends the WHERE clause. */
  method BuildUpdate(entries: seq<Entry>) returns (s: Statement)
    requires |entries| >= 1
    ensures s == UpdateFor(entries)
    ensures entries[0].value.Int? ==> Placeholders(s.sql) == |s.params|
  {
    var queryString := UpdateHead;
    var params: seq<SqlValue> := [];
    var index := 0;
    while index < |entries|
      invariant index <= |entries|
      invariant queryString == UpdateHead + SetClause(entries, index)
      invariant params == SetParams(entries, index)
    {
      var entry := entries[index];
      ghost var before := queryString;
      ghost var pushed := params;
      if entry.key != Id {
        var separator := if index == |entries| - 1 then " " else ", ";
        queryString := queryString + ("event_" + Key(entry.key) + " = ?" + separator);
        params := params + [entry.value];
      }
      AppendPiece(entries, index, before, queryString);
      PushParam(entries, index, pushed, params);
      index := index + 1;
    }
    queryString := queryString + WhereId + Render(entries[0].value);
    s := Statement(queryString, params);
    if entries[0].value.Int? {
      UpdatePlaceholdersMatch(entries);
    }
  }

  /** One iteration of the loop pushes the entry's value unless it is `id`. */
  lemma PushParam(es: seq<Entry>, i: nat, before: seq<SqlValue>, after: seq<SqlValue>)
    requires i < |es| && before == SetParams(es, i)
    requires es[i].key == Id ==> after == before
    requires es[i].key != Id ==> after == before + [es[i].value]
    ensures after == SetParams(es, i + 1)
  {
  }

  /** One iteration of the loop appends Piece(es, i) to the accumulator. */
  lemma AppendPiece(es: seq<Entry>, i: nat, before: string, after: string)
    requires i < |es| && before == UpdateHead + SetClause(es, i)
    requires es[i].key == Id ==> after == before
    requires es[i].key != Id ==>
      after == before + ("event_" + Key(es[i].key) + " = ?" + (if i == |es| - 1 then " " else ", "))
    ensures after == UpdateHead + SetClause(es, i + 1)
  {
    var piece := Piece(es, i);
    assert after == before + piece;
    Associative(UpdateHead, SetClause(es, i), piece);
  }

  lemma Associative(a: string, b: string, c: string)
    ensures (a + b) + c == a + (b + c)
  {
  }

  function Values(es: seq<Entry>): seq<SqlValue>
  {
    if es == [] then [] else Values(es[..|es| - 1]) + [es[|es| - 1].value]
  }

  function Assignments(es: seq<Entry>): (r: seq<string>)
    ensures |r| == |es|
  {
    if es == [] then [] else Assignments(es[..|es| - 1]) + [Assignment(es[|es| - 1].key)]
  }

  /** Entries as Object.entries gives them for this schema: `id` first and only first. */
  predicate IdFirstOnly(es: seq<Entry>)
  {
    |es| >= 1 && es[0].key == Id && forall i :: 1 <= i < |es| ==> es[i].key != Id
  }

  lemma {:induction false} SetParamsPrefix(es: seq<Entry>, n: nat)
    requires IdFirstOnly(es) && 1 <= n <= |es|
    ensures SetParams(es, n) == Values(es[1..n])
  {
    if n > 1 {
      SetParamsPrefix(es, n - 1);
      assert es[1..n][..n - 2] == es[1..n - 1];
    } else {
      assert SetParams(es, 0) == [];
    }
  }

  lemma {:induction false} JoinSnoc(ys: seq<string>, y: string, sep: string)
    ensures Join(ys + [y], sep) == if ys == [] then y else Join(ys, sep) + sep + y
    decreases |ys|
  {
    if |ys| > 1 {
      JoinSnoc(ys[1..], y, sep);
      assert (ys + [y])[1..] == ys[1..] + [y];
    } else if |ys| == 1 {
      assert (ys + [y])[1..] == [y];
    }
  }

  lemma {:induction false} AssignmentsSnoc(es: seq<Entry>, n: nat)
    requires 2 <= n <= |es|
    ensures Assignments(es[1..n]) == Assignments(es[1..n - 1]) + [Assignment(es[n - 1].key)]
  {
    assert es[1..n][..n - 2] == es[1..n - 1];
  }

  /** Appending one more element to a separated list. */
  lemma JoinExtend(xs: seq<string>, a: string, sep: string, tail: string)
    ensures (if xs == [] then "" else Join(xs, sep) + sep) + (a + tail) == Join(xs + [a], sep) + tail
  {
    JoinSnoc(xs, a, sep);
    if xs != [] {
      var j := Join(xs, sep);
      assert (j + sep) + (a + tail) == (j + sep + a) + tail;
    }
  }

  lemma SetClauseStep(es: seq<Entry>, n: nat)
    requires IdFirstOnly(es) && 2 <= n <= |es|
    ensures SetClause(es, n) == SetClause(es, n - 1) + (Assignment(es[n - 1].key) + (if n == |es| then " " else ", "))
  {
  }

  /** Each string of `xs` followed by `sep`. */
  function Followed(xs: seq<string>, sep: string): string
  {
    if xs == [] then "" else Followed(xs[..|xs| - 1], sep) + (xs[|xs| - 1] + sep)
  }

  lemma FollowedSnoc(xs: seq<string>, a: string, sep: string)
    ensures Followed(xs + [a], sep) == Followed(xs, sep) + (a + sep)
  {
    assert (xs + [a])[..|xs|] == xs;
  }

  /** A list in which every element is followed by the separator is the
      joined list and one more separator. */
  lemma {:induction false} FollowedIsJoin(xs: seq<string>, sep: string)
    ensures xs != [] ==> Followed(xs, sep) == Join(xs, sep) + sep
    decreases |xs|
  {
    if xs != [] {
      var ys, y := xs[..|xs| - 1], xs[|xs| - 1];
      assert xs == ys + [y];
      FollowedIsJoin(ys, sep);
      JoinSnoc(ys, y, sep);
      if ys != [] {
        Associative(Join(ys, sep) + sep, y, sep);
      }
    }
  }

  lemma FollowedThen(xs: seq<string>, a: string, sep: string, tail: string)
    ensures Followed(xs, sep) + (a + tail) == Join(xs + [a], sep) + tail
  {
    FollowedIsJoin(xs, sep);
    JoinExtend(xs, a, sep, tail);
  }

  /** Before the last entry, every assignment is followed by `, `. */
  lemma {:induction false} SetClauseBeforeLast(es: seq<Entry>, n: nat)
    requires IdFirstOnly(es) && 1 <= n < |es|
    ensures SetClause(es, n) == Followed(Assignments(es[1..n]), ", ")
  {
    if n == 1 {
      FirstClauseEmpty(es);
      assert es[1..n] == [];
    } else {
      SetClauseBeforeLast(es, n - 1);
      MiddleStep(es, n);
    }
  }

  lemma MiddleStep(es: seq<Entry>, n: nat)
    requires IdFirstOnly(es) && 2 <= n < |es|
    ensures SetClause(es, n - 1) == Followed(Assignments(es[1..n - 1]), ", ") ==>
      SetClause(es, n) == Followed(Assignments(es[1..n]), ", ")
  {
    SetClauseStep(es, n);
    AssignmentsSnoc(es, n);
    if SetClause(es, n - 1) == Followed(Assignments(es[1..n - 1]), ", ") {
      FollowedStep(SetClause(es, n), SetClause(es, n - 1), Assignment(es[n - 1].key), ", ",
                   Assignments(es[1..n - 1]), Assignments(es[1..n]));
    }
  }

  lemma FollowedStep(clause: string, before: string, a: string, sep: string, prev: seq<string>, all: seq<string>)
    requires clause == before + (a + sep) && before == Followed(prev, sep) && all == prev + [a]
    ensures clause == Followed(all, sep)
  {
    FollowedSnoc(prev, a, sep);
  }

  /** The iteration over `id` appends nothing. */
  lemma FirstClauseEmpty(es: seq<Entry>)
    requires IdFirstOnly(es)
    ensures SetClause(es, 1) == ""
  {
    assert SetClause(es, 0) == "";
    assert Piece(es, 0) == "";
  }

  /** The SET clause the loop builds: empty when `id` is the only entry,
      otherwise the comma-separated assignments of the other entries and a
      single trailing space. */
  lemma SetClauseShape(es: seq<Entry>)
    requires IdFirstOnly(es)
    ensures |es| == 1 ==> SetClause(es, |es|) == ""
    ensures |es| > 1 ==> SetClause(es, |es|) == Join(Assignments(es[1..|es|]), ", ") + " "
  {
    if |es| == 1 {
      assert SetClause(es, 1) == SetClause(es, 0) + Piece(es, 0);
    } else {
      SetClauseWithFields(es);
    }
  }

  lemma SetClauseWithFields(es: seq<Entry>)
    requires IdFirstOnly(es) && |es| > 1
    ensures SetClause(es, |es|) == Join(Assignments(es[1..|es|]), ", ") + " "
  {
    var n := |es|;
    SetClauseBeforeLast(es, n - 1);
    SetClauseStep(es, n);
    AssignmentsSnoc(es, n);
    FollowedThen(Assignments(es[1..n - 1]), Assignment(es[n - 1].key), ", ", " ");
  }

  lemma AssignmentPlaceholders(k: Field, sep: string)
    requires sep == " " || sep == ", "
    ensures Placeholders(Assignment(k) + sep) == 1
  {
    var key := Key(k);
    assert NoPlaceholder(key);
    assert NoPlaceholder("event_");
    assert NoPlaceholder("event_" + key);
    NoPlaceholderCount("event_" + key);
    assert Placeholders(" = ?") == 1 by {
      assert " = ?"[..3] == " = ";
      assert NoPlaceholder(" = ");
      NoPlaceholderCount(" = ");
    }
    PlaceholdersAppend("event_" + key, " = ?");
    assert NoPlaceholder(sep);
    NoPlaceholderCount(sep);
    PlaceholdersAppend(Assignment(k), sep);
  }

  lemma PiecePlaceholders(es: seq<Entry>, i: nat)
    requires i < |es|
    ensures Placeholders(Piece(es, i)) == if es[i].key == Id then 0 else 1
  {
    if es[i].key != Id {
      var sep := if i == |es| - 1 then " " else ", ";
      assert Piece(es, i) == Assignment(es[i].key) + sep;
      AssignmentPlaceholders(es[i].key, sep);
    }
  }

  lemma {:induction false} SetClausePlaceholders(es: seq<Entry>, n: nat)
    requires n <= |es|
    ensures Placeholders(SetClause(es, n)) == |SetParams(es, n)|
  {
    if n > 0 {
      var pushed := if es[n - 1].key == Id then [] else [es[n - 1].value];
      assert SetClause(es, n) == SetClause(es, n - 1) + Piece(es, n - 1);
      assert SetParams(es, n) == SetParams(es, n - 1) + pushed;
      SetClausePlaceholders(es, n - 1);
      PiecePlaceholders(es, n - 1);
      CountStep(SetClause(es, n - 1), Piece(es, n - 1), SetParams(es, n - 1), pushed);
    }
  }

  lemma CountStep(text: string, more: string, params: seq<SqlValue>, pushed: seq<SqlValue>)
    requires Placeholders(text) == |params| && Placeholders(more) == |pushed|
    ensures Placeholders(text + more) == |params + pushed|
  {
    PlaceholdersAppend(text, more);
  }

  /** Every `?` of the statement has exactly one parameter, when the value
      spliced after `WHERE id = ` is a number. */
  lemma UpdatePlaceholdersMatch(es: seq<Entry>)
    requires |es| >= 1 && es[0].value.Int?
    ensures Placeholders(UpdateFor(es).sql) == |UpdateFor(es).params|
  {
    var clause := SetClause(es, |es|);
    var id := IntToString(es[0].value.i);
    assert UpdateFor(es).sql == UpdateHead + clause + WhereId + id;
    SetClausePlaceholders(es, |es|);
    FixedTextsHaveNoPlaceholder();
    NoPlaceholderCount(id);
    PlaceholdersAppend(UpdateHead, clause);
    PlaceholdersAppend(UpdateHead + clause, WhereId);
    PlaceholdersAppend(UpdateHead + clause + WhereId, id);
  }

  lemma FixedTextsHaveNoPlaceholder()
    ensures Placeholders(UpdateHead) == 0 && Placeholders(WhereId) == 0
  {
    assert NoPlaceholder(UpdateHead);
    NoPlaceholderCount(UpdateHead);
    assert NoPlaceholder(WhereId);
    NoPlaceholderCount(WhereId);
  }

  predicate NoId(es: seq<Entry>)
  {
    forall i :: 0 <= i < |es| ==> es[i].key != Id
  }

  /** Keys listed in strictly increasing schema position. */
  predicate Ascending(ks: seq<Field>)
  {
    forall i, j :: 0 <= i < j < |ks| ==> Rank(ks[i]) < Rank(ks[j])
  }

  predicate AscendingEntries(es: seq<Entry>)
  {
    forall i, j :: 0 <= i < j < |es| ==> Rank(es[i].key) < Rank(es[j].key)
  }

  /** An entry for a key the body holds, carrying the body's value. */
  predicate Holds(b: UpdateBody, e: Entry)
  {
    FieldValue(b, e.key).Some? && e.value == Text(FieldValue(b, e.key).value)
  }

  lemma {:induction false} PatchOfShape(b: UpdateBody, ks: seq<Field>)
    requires Ascending(ks)
    ensures AscendingEntries(PatchOf(b, ks))
    ensures forall e :: e in PatchOf(b, ks) <==> e.key in ks && Holds(b, e)
  {
    if ks != [] {
      var head := Present(ks[0], FieldValue(b, ks[0]));
      var rest := PatchOf(b, ks[1..]);
      assert Ascending(ks[1..]) by {
        forall i, j | 0 <= i < j < |ks[1..]| ensures Rank(ks[1..][i]) < Rank(ks[1..][j]) {
          assert ks[1..][i] == ks[i + 1] && ks[1..][j] == ks[j + 1];
        }
      }
      PatchOfShape(b, ks[1..]);
      forall e | e in rest ensures Rank(ks[0]) < Rank(e.key) {
        var j :| 0 <= j < |ks[1..]| && ks[1..][j] == e.key;
        assert ks[j + 1] == e.key;
      }
      AppendAscending(head, rest);
      assert ks[0] !in ks[1..] by {
        forall j | 0 <= j < |ks[1..]| ensures ks[1..][j] != ks[0] {
          assert ks[1..][j] == ks[j + 1];
        }
      }
      forall e ensures e in head + rest <==> e.key in ks && Holds(b, e) {
        assert e.key in ks <==> e.key == ks[0] || e.key in ks[1..] by {
          if e.key in ks {
            var j :| 0 <= j < |ks| && ks[j] == e.key;
            if j > 0 { assert ks[1..][j - 1] == e.key; }
          }
        }
      }
    }
  }

  lemma AppendAscending(head: seq<Entry>, rest: seq<Entry>)
    requires |head| <= 1 && AscendingEntries(rest)
    requires forall e :: e in head ==> forall d :: d in rest ==> Rank(e.key) < Rank(d.key)
    ensures AscendingEntries(head + rest)
  {
    var all := head + rest;
    forall i, j | 0 <= i < j < |all| ensures Rank(all[i].key) < Rank(all[j].key) {
      if i < |head| {
        assert all[i] in head && all[j] == rest[j - |head|] && rest[j - |head|] in rest;
      } else {
        assert all[i] == rest[i - |head|] && all[j] == rest[j - |head|];
      }
    }
  }

  /** The patch holds one entry per optional key the body holds, with the
      body's value, and no other; its keys follow the schema's order, so
      `id`, which comes first in the schema, is never among them. */
  lemma PatchInSchemaOrder(b: UpdateBody)
    ensures forall e :: e in Patch(b) <==> e.key != Id && Holds(b, e)
    ensures AscendingEntries(Patch(b))
    ensures NoId(Patch(b))
  {
    assert Ascending(OptionalFields);
    PatchOfShape(b, OptionalFields);
    forall k: Field ensures k in OptionalFields <==> k != Id {
      if k != Id {
        assert k == OptionalFields[Rank(k) - 1];
      }
    }
    forall i | 0 <= i < |Patch(b)| ensures Patch(b)[i].key != Id {
      assert Patch(b)[i] in Patch(b);
    }
  }

  lemma EntriesShape(b: UpdateBody)
    ensures IdFirstOnly(Entries(b)) && Entries(b)[0].value == Int(b.id)
    ensures Entries(b)[1..|Entries(b)|] == Patch(b)
  {
    var p := Patch(b);
    PatchInSchemaOrder(b);
    var es := [Entry(Id, Int(b.id))] + p;
    assert es[1..|es|] == p;
    forall i | 1 <= i < |es| ensures es[i].key != Id {
      assert es[i] == p[i - 1];
    }
  }

  /** What `updateEvent` sends for a parsed body: `id` contributes neither an
      assignment nor a parameter; every other key the body holds contributes
      `event_<key> = ?` and its value, in schema order; the assignments are
      separated by `, ` and followed by one space; the statement ends with
      `WHERE id = ` and the id. A body holding only `id` yields
      `UPDATE events SET WHERE id = <id>`, an empty SET clause. */
  lemma UpdateStatementShape(b: UpdateBody)
    ensures UpdateFor(Entries(b)).params == Values(Patch(b))
    ensures Placeholders(UpdateFor(Entries(b)).sql) == |Values(Patch(b))|
    ensures Patch(b) == [] ==> UpdateFor(Entries(b)).sql == UpdateHead + WhereId + IntToString(b.id)
    ensures Patch(b) != [] ==>
      UpdateFor(Entries(b)).sql == UpdateHead + Join(Assignments(Patch(b)), ", ") + " " + WhereId + IntToString(b.id)
  {
    var es := Entries(b);
    EntriesShape(b);
    SetParamsPrefix(es, |es|);
    SetClauseShape(es);
    UpdatePlaceholdersMatch(es);
    var tail := WhereId + IntToString(b.id);
    if Patch(b) != [] {
      var j := Join(Assignments(Patch(b)), ", ");
      assert UpdateFor(es).sql == UpdateHead + (j + " ") + WhereId + IntToString(b.id);
      Associative(UpdateHead, j, " ");
    } else {
      assert |es| == 1;
    }
  }

  /** updateEvent: parse, build, send; any failure answers 500. It does not
      read `req.user`: nothing checks that the caller hosts the event. */
  method UpdateEvent(raw: RawEventBody, f: Formats, storeError: Option<string>) returns (r: Outcome)
    ensures ParseUpdateBody(raw, f).Invalid? ==> r == Outcome(Fail(ValidationError), [])
    ensures ParseUpdateBody(raw, f).Valid? ==>
      var b := ParseUpdateBody(raw, f).value;
      && r.queries == [UpdateFor(Entries(b))]
      && r.response == (if storeError.Some? then Fail(StoreError(storeError.value)) else Response(200, Empty))
  {
    var parsed := ParseUpdateBody(raw, f);
    if parsed.Invalid? {
      return Outcome(Fail(ValidationError), []);
    }
    var s := BuildUpdate(Entries(parsed.value));
    if storeError.Some? {
      return Outcome(Fail(StoreError(storeError.value)), [s]);
    }
    return Outcome(Response(200, Empty), [s]);
  }

  // ---------------------------------------------------------------------------
  // createEvent: the event row, then the host's enrollment row

  const EventInsertColumns: seq<string> := ["event_title", "event_thumbnail", "event_banner",
    "event_host_id", "event_description", "event_resume", "event_location", "event_date"]
  const EnrollmentColumns: seq<string> := ["user_id", "event_id", "user_role"]

  /** The event INSERT as the source writes it: eight columns, seven `?`. */
  const InsertEventSqlAsWritten: string := InsertText("events", EventInsertColumns, 7) + ";"

  /** The event INSERT with one `?` per column. */
  const InsertEventSql: string := InsertText("events", EventInsertColumns, |EventInsertColumns|) + ";"

  const InsertEnrollmentSql: string := InsertText("user_events", EnrollmentColumns, |EnrollmentColumns|) + ";"

  /** The parameters of the event INSERT, in column order. */
  function CreateEventParams(b: CreateBody, hostId: int): seq<SqlValue>
  {
    [Text(b.title), Nullable(b.thumbnail), Nullable(b.banner), Int(hostId),
     Nullable(b.description), Nullable(b.resume), Nullable(b.location), Nullable(b.date)]
  }

  /** What each column of the event row is meant to receive. */
  function ColumnValue(b: CreateBody, hostId: int, column: string): SqlValue
  {
    if column == "event_title" then Text(b.title)
    else if column == "event_thumbnail" then Nullable(b.thumbnail)
    else if column == "event_banner" then Nullable(b.banner)
    else if column == "event_host_id" then Int(hostId)
    else if column == "event_description" then Nullable(b.description)
    else if column == "event_resume" then Nullable(b.resume)
    else if column == "event_location" then Nullable(b.location)
    else if column == "event_date" then Nullable(b.date)
    else Null
  }

  /** The k-th parameter is the value meant for the k-th column: the title,
      each optional field or null when omitted, and the session user as host. */
  lemma CreateEventParamsAlign(b: CreateBody, hostId: int)
    ensures |CreateEventParams(b, hostId)| == |EventInsertColumns|
    ensures forall k :: 0 <= k < |EventInsertColumns| ==>
      CreateEventParams(b, hostId)[k] == ColumnValue(b, hostId, EventInsertColumns[k])
  {
    var ps := CreateEventParams(b, hostId);
    var cs := EventInsertColumns;
    assert ps[0] == ColumnValue(b, hostId, cs[0]);
    assert ps[1] == ColumnValue(b, hostId, cs[1]);
    assert ps[2] == ColumnValue(b, hostId, cs[2]);
    assert ps[3] == ColumnValue(b, hostId, cs[3]);
    assert ps[4] == ColumnValue(b, hostId, cs[4]);
    assert ps[5] == ColumnValue(b, hostId, cs[5]);
    assert ps[6] == ColumnValue(b, hostId, cs[6]);
    assert ps[7] == ColumnValue(b, hostId, cs[7]);
  }

  lemma EventInsertColumnsPlain()
    ensures forall k :: 0 <= k < |EventInsertColumns| ==> NoPlaceholder(EventInsertColumns[k])
    ensures forall k :: 0 <= k < |EnrollmentColumns| ==> NoPlaceholder(EnrollmentColumns[k])
  {
  }

  /** The event INSERT as written names eight columns and receives eight
      parameters but holds only seven placeholders. */
  lemma InsertEventAsWrittenMismatch(b: CreateBody, hostId: int)
    ensures |EventInsertColumns| == 8 && |CreateEventParams(b, hostId)| == 8
    ensures Placeholders(InsertEventSqlAsWritten) == 7
  {
    EventInsertColumnsPlain();
    assert NoPlaceholder("events");
    InsertTextPlaceholders("events", EventInsertColumns, 7);
    Terminated(InsertText("events", EventInsertColumns, 7));
  }

  lemma Terminated(sql: string)
    ensures Placeholders(sql + ";") == Placeholders(sql)
  {
    assert NoPlaceholder(";");
    NoPlaceholderCount(";");
    PlaceholdersAppend(sql, ";");
  }

  /** With one placeholder per column, the columns, the placeholders and the
      parameters of both INSERTs agree in number. */
  lemma InsertStatementsMatch(b: CreateBody, hostId: int, eventId: int)
    ensures Placeholders(InsertEventSql) == |EventInsertColumns| == |CreateEventParams(b, hostId)|
    ensures Placeholders(InsertEnrollmentSql) == |EnrollmentColumns|
      == |[Int(hostId), Int(eventId), Text("host")]|
  {
    EventInsertColumnsPlain();
    assert NoPlaceholder("events");
    assert NoPlaceholder("user_events");
    InsertTextPlaceholders("events", EventInsertColumns, |EventInsertColumns|);
    InsertTextPlaceholders("user_events", EnrollmentColumns, |EnrollmentColumns|);
    Terminated(InsertText("events", EventInsertColumns, |EventInsertColumns|));
    Terminated(InsertText("user_events", EnrollmentColumns, |EnrollmentColumns|));
  }

  /** The store's answer to the event INSERT: the new row's id, or an error. */
  datatype InsertAnswer = InsertId(id: int) | InsertFailed(message: string)

  /** createEvent: parse, insert the event row with the session user as host,
      then insert the host's enrollment row. The two INSERTs are separate
      statements with nothing to undo the first when the second fails. */
  function CreateEvent(raw: RawEventBody, f: Formats, user: Option<Principal>,
                       inserted: InsertAnswer, enrollError: Option<string>): (r: Outcome)
    ensures ParseCreateBody(raw, f).Invalid? ==> r == Outcome(Fail(ValidationError), [])
    ensures ParseCreateBody(raw, f).Valid? && user.None? ==> r == Outcome(Fail(TypeError), [])
    ensures r.response.status == 201 || r.response.status == 500
    ensures r.response.status == 201 <==>
      ParseCreateBody(raw, f).Valid? && user.Some? && inserted.InsertId? && enrollError.None?
    ensures r.response.status == 201 ==>
      r.queries == [Statement(InsertEventSql, CreateEventParams(ParseCreateBody(raw, f).value, user.value.id)),
                    Statement(InsertEnrollmentSql, [Int(user.value.id), Int(inserted.id), Text("host")])]
  {
    match ParseCreateBody(raw, f)
    case Invalid => Outcome(Fail(ValidationError), [])
    case Valid(b) =>
      if user.None? then Outcome(Fail(TypeError), [])
      else
        var host := user.value.id;
        var event := Statement(InsertEventSql, CreateEventParams(b, host));
        match inserted
        case InsertFailed(m) => Outcome(Fail(StoreError(m)), [event])
        case InsertId(eventId) =>
          var enrollment := Statement(InsertEnrollmentSql, [Int(host), Int(eventId), Text("host")]);
          if enrollError.Some? then Outcome(Fail(StoreError(enrollError.value)), [event, enrollment])
          else Outcome(Response(201, Empty), [event, enrollment])
  }

  /** Not atomic: when the event row went in and the enrollment INSERT fails,
      the handler answers 500 and sends nothing that removes the event row, so
      the event stays without its host enrollment. */
  lemma CreateEventNotAtomic(raw: RawEventBody, f: Formats, user: Option<Principal>, eventId: int, m: string)
    requires ParseCreateBody(raw, f).Valid? && user.Some?
    ensures var r := CreateEvent(raw, f, user, InsertId(eventId), Some(m));
      && r.response == Fail(StoreError(m))
      && |r.queries| == 2
      && r.queries[0].sql == InsertEventSql
      && r.queries[1].sql == InsertEnrollmentSql
  {
  }

  // ---------------------------------------------------------------------------
  // deleteEvent

  const DeleteEventSql := "DELETE FROM events WHERE id = ?"

  /** deleteEvent: the coerced path id must be at least 1; the row is then
      deleted whoever the caller is. `pathId` is `Number(req.params.id)`,
      None when that is NaN. */
  function DeleteEvent(pathId: Option<int>, caller: Option<Principal>, storeError: Option<string>): (r: Outcome)
    ensures pathId.None? || pathId.value < 1 ==> r == Outcome(Fail(ValidationError), [])
    ensures pathId.Some? && pathId.value >= 1 ==> r.queries == [Statement(DeleteEventSql, [Int(pathId.value)])]
    ensures r.response.status == 204 <==> pathId.Some? && pathId.value >= 1 && storeError.None?
  {
    if pathId.None? || pathId.value < 1 then Outcome(Fail(ValidationError), [])
    else
      var delete := Statement(DeleteEventSql, [Int(pathId.value)]);
      if storeError.Some? then Outcome(Fail(StoreError(storeError.value)), [delete])
      else Outcome(Response(204, Empty), [delete])
  }

  /** No ownership check: the outcome does not depend on who asks. */
  lemma DeleteEventIgnoresCaller(pathId: Option<int>, c1: Option<Principal>, c2: Option<Principal>, e: Option<string>)
    ensures DeleteEvent(pathId, c1, e) == DeleteEvent(pathId, c2, e)
  {
  }

  // ---------------------------------------------------------------------------
  // getEvent and getEvents: the projection and the optional clauses

  /** One item of the SELECT list of the event reads. */
  datatype Column = Stored(field: Field) | HostId | Slug | IsEnrolled

  /** The name the column is returned under. */
  function Alias(c: Column): string
  {
    match c
    case Stored(f) => Key(f)
    case HostId => "host_id"
    case Slug => "slug"
    case IsEnrolled => "is_enrolled"
  }

  function ColumnText(c: Column): string
  {
    match c
    case Stored(Id) => "id"
    case Stored(f) => "event_" + Key(f) + " AS " + Key(f)
    case HostId => "event_host_id AS host_id"
    case Slug => "event_slug AS slug"
    case IsEnrolled => EnrolledFlag
  }

  const EnrolledFlag := "CASE WHEN user_events.user_id " + "IS NOT NULL THEN TRUE ELSE FALSE " + "END AS is_enrolled"

  function ColumnTexts(cs: seq<Column>): seq<string>
  {
    if cs == [] then [] else [ColumnText(cs[0])] + ColumnTexts(cs[1..])
  }

  /** No text of a SELECT list holds a placeholder. */
  lemma {:induction false} ColumnTextsPlain(cs: seq<Column>)
    ensures forall k :: 0 <= k < |ColumnTexts(cs)| ==> NoPlaceholder(ColumnTexts(cs)[k])
  {
    if cs != [] {
      ColumnTextPlain(cs[0]);
      ColumnTextsPlain(cs[1..]);
      var rest := ColumnTexts(cs[1..]);
      forall k | 0 <= k < |ColumnTexts(cs)| ensures NoPlaceholder(ColumnTexts(cs)[k]) {
        if k > 0 { assert ColumnTexts(cs)[k] == rest[k - 1]; }
      }
    }
  }

  function Aliases(cs: seq<Column>): (names: seq<string>)
    ensures |names| == |cs|
    ensures forall k :: 0 <= k < |cs| ==> names[k] == Alias(cs[k])
  {
    if cs == [] then [] else [Alias(cs[0])] + Aliases(cs[1..])
  }

  /** Only the enrollment flag is returned as `is_enrolled`. */
  lemma AliasIsEnrolled(c: Column)
    ensures Alias(c) == "is_enrolled" <==> c == IsEnrolled
  {
    if c.Stored? {
      assert |Key(c.field)| != 11 || Key(c.field)[0] != 'i';
    }
  }

  /** The columns every event read returns. */
  const EventColumns: seq<Column> := [Stored(Id), Stored(Title), Stored(Thumbnail), Stored(Banner),
    HostId, Stored(Description), Stored(Resume), Slug, Stored(Location), Stored(Date)]

  function SelectText(cs: seq<Column>): string
  {
    "SELECT " + Join(ColumnTexts(cs), ", ") + " FROM events "
  }

  /** The projection of getEvent: the enrollment flag only for a signed-in caller. */
  function Projection(signedIn: bool): seq<Column>
  {
    if signedIn then EventColumns + [IsEnrolled] else EventColumns
  }

  const JoinEnrollment := "LEFT JOIN user_events ON events.id " + "= user_events.event_id AND " + "user_events.user_id = " + "?" + " "
  const SlugFilter := "WHERE event_slug = " + "?"

  /** getEvent's query: with `req.user`, the row is LEFT JOINed with the
      caller's enrollment row and the caller's id is the first parameter. */
  function GetEventStatement(slug: string, user: Option<Principal>): (s: Statement)
    ensures user.Some? ==> s.params == [Int(user.value.id), Text(slug)]
    ensures user.None? ==> s.params == [Text(slug)]
  {
    match user
    case Some(u) => Statement(SelectText(Projection(true)) + JoinEnrollment + SlugFilter, [Int(u.id), Text(slug)])
    case None => Statement(SelectText(Projection(false)) + SlugFilter, [Text(slug)])
  }

  /** getEvent: the first row the query returns, answered with 200. */
  function GetEvent(slug: string, user: Option<Principal>, storeError: Option<string>): (r: Outcome)
    ensures r.queries == [GetEventStatement(slug, user)]
    ensures r.response.status == 200 <==> storeError.None?
  {
    var s := GetEventStatement(slug, user);
    if storeError.Some? then Outcome(Fail(StoreError(storeError.value)), [s])
    else Outcome(Response(200, QueryRowsJson), [s])
  }

  /** The response carries an `is_enrolled` field exactly when the caller is
      signed in; the other fields are the same either way. */
  lemma IsEnrolledOnlyWhenSignedIn(user: Option<Principal>)
    ensures "is_enrolled" in Aliases(Projection(user.Some?)) <==> user.Some?
    ensures Aliases(Projection(user.Some?))[..|EventColumns|] == Aliases(EventColumns)
  {
    assert IsEnrolled !in EventColumns;
    if user.Some? {
      FlagAppended(EventColumns);
    } else {
      NoFlag(EventColumns);
    }
  }

  lemma NoFlag(cs: seq<Column>)
    requires IsEnrolled !in cs
    ensures "is_enrolled" !in Aliases(cs)
  {
    forall k | 0 <= k < |cs|
      ensures Aliases(cs)[k] != "is_enrolled"
    {
      AliasIsEnrolled(cs[k]);
    }
  }

  lemma FlagAppended(cs: seq<Column>)
    requires IsEnrolled !in cs
    ensures "is_enrolled" in Aliases(cs + [IsEnrolled])
    ensures Aliases(cs + [IsEnrolled])[..|cs|] == Aliases(cs)
  {
    AliasesSnoc(cs, IsEnrolled);
    assert Aliases(cs + [IsEnrolled])[|cs|] == "is_enrolled";
  }

  lemma AliasesSnoc(cs: seq<Column>, c: Column)
    ensures Aliases(cs + [c]) == Aliases(cs) + [Alias(c)]
  {
    var all := Aliases(cs + [c]);
    assert forall k :: 0 <= k < |cs| ==> all[k] == Alias((cs + [c])[k]) == Alias(cs[k]);
  }

  const ListSelect := SelectText(EventColumns)
  const TitleLike := "WHERE event_title LIKE " + "?"
  const LimitClause := "LIMIT " + "?"

  /** `query` is truthy: present and not the empty string. */
  predicate HasQuery(query: Option<string>)
  {
    query.Some? && query.value != ""
  }

  /** `limit` is truthy: present and not 0 (zod already refused NaN). */
  predicate HasLimit(limit: Option<int>)
  {
    limit.Some? && limit.value != 0
  }

  /** The listing getEvents sends: a LIKE clause with `%query%` when `query`
      is truthy, then a LIMIT clause with `limit` when `limit` is truthy. */
  function EventsListing(limit: Option<int>, query: Option<string>): Statement
  {
    ListingFrom(ListSelect, limit, query)
  }

  /** The appends of getEvents, after the SELECT text `select`. */
  function ListingFrom(select: string, limit: Option<int>, query: Option<string>): Statement
  {
    var filtered := TitleFiltered(select, query);
    if HasLimit(limit) then WithClause(filtered, LimitClause, Int(limit.value)) else filtered
  }

  /** The listing before its LIMIT clause. */
  function TitleFiltered(select: string, query: Option<string>): Statement
  {
    var listing := Statement(select, []);
    if HasQuery(query) then WithClause(listing, TitleLike, Text("%" + query.value + "%")) else listing
  }

  /** The LIKE clause and its `%query%` come exactly when `query` is truthy,
      then the LIMIT clause and `limit` exactly when `limit` is truthy. */
  lemma ListingShape(select: string, limit: Option<int>, query: Option<string>)
    ensures var s := ListingFrom(select, limit, query);
      && |s.params| == (if HasQuery(query) then 1 else 0) + (if HasLimit(limit) then 1 else 0)
      && (HasQuery(query) ==> s.params[0] == Text("%" + query.value + "%"))
      && (HasLimit(limit) ==> s.params[|s.params| - 1] == Int(limit.value))
      && (HasQuery(query) && HasLimit(limit) ==> s.sql == select + TitleLike + LimitClause)
      && (HasQuery(query) && !HasLimit(limit) ==> s.sql == select + TitleLike)
      && (!HasQuery(query) && HasLimit(limit) ==> s.sql == select + LimitClause)
      && (!HasQuery(query) && !HasLimit(limit) ==> s.sql == select)
  {
    var t := TitleFiltered(select, query);
    if HasQuery(query) {
      var like := Text("%" + query.value + "%");
      assert t.params == [like];
      if HasLimit(limit) {
        assert ListingFrom(select, limit, query).params == [like, Int(limit.value)];
      }
    } else {
      assert t.params == [];
      if HasLimit(limit) {
        assert ListingFrom(select, limit, query).params == [Int(limit.value)];
      }
    }
  }

  /** A clause appended to the text and its value pushed onto the parameters. */
  function WithClause(s: Statement, clause: string, v: SqlValue): Statement
  {
    Statement(s.sql + clause, s.params + [v])
  }

  /** A value of `req.query` after `z.coerce.number()` applied `Number` to it. */
  datatype Coerced = Number(n: int) | NotANumber

  /** A value of `req.query`: a string, or an array or object when the key
      is repeated or nested. */
  datatype QueryValue = StringValue(text: string) | NonString

  datatype RawListing = RawListing(limit: Option<Coerced>, page: Option<Coerced>, query: Option<QueryValue>)

  datatype Listing = Listing(limit: Option<int>, page: Option<int>, query: Option<string>)

  function Numeric(v: Option<Coerced>): Option<int>
    requires v.None? || v.value.Number?
  {
    if v.None? then None else Some(v.value.n)
  }

  /** getEvents' query schema: an absent key stays absent, a number refuses
      NaN, and `query` must be a string. */
  function ParseListing(raw: RawListing): (p: Parsed<Listing>)
    ensures p.Valid? <==>
      (raw.limit.None? || raw.limit.value.Number?) && (raw.page.None? || raw.page.value.Number?) &&
      (raw.query.None? || raw.query.value.StringValue?)
    ensures p.Valid? ==> (p.value.limit.Some? <==> raw.limit.Some?) && (p.value.query.Some? <==> raw.query.Some?)
    ensures p.Valid? && raw.limit.Some? ==> raw.limit.value == Number(p.value.limit.value)
    ensures p.Valid? && raw.query.Some? ==> raw.query.value == StringValue(p.value.query.value)
  {
    if raw.limit.Some? && raw.limit.value.NotANumber? then Invalid
    else if raw.page.Some? && raw.page.value.NotANumber? then Invalid
    else if raw.query.Some? && raw.query.value.NonString? then Invalid
    else Valid(Listing(Numeric(raw.limit), Numeric(raw.page),
                       if raw.query.None? then None else Some(raw.query.value.text)))
  }

  /** `page` only has to be a number: any other number, or none, yields the same listing. */
  lemma PageUnused(raw: RawListing, page: Option<Coerced>)
    requires ParseListing(raw).Valid? && (page.None? || page.value.Number?)
    ensures ParseListing(raw.(page := page)).Valid?
    ensures var p, q := ParseListing(raw).value, ParseListing(raw.(page := page)).value;
      EventsListing(q.limit, q.query) == EventsListing(p.limit, p.query)
  {
  }

  /** getEvents: parses the query string, then appends the optional clauses
      to the listing query. `page` must be a number and is never used. */
  method GetEvents(raw: RawListing, storeError: Option<string>) returns (r: Outcome)
    ensures ParseListing(raw).Invalid? ==> r == Outcome(Fail(ValidationError), [])
    ensures ParseListing(raw).Valid? ==>
      r.queries == [EventsListing(ParseListing(raw).value.limit, ParseListing(raw).value.query)]
    ensures r.response.status == 200 <==> ParseListing(raw).Valid? && storeError.None?
  {
    var parsed := ParseListing(raw);
    if parsed.Invalid? {
      return Outcome(Fail(ValidationError), []);
    }
    var limit, query := parsed.value.limit, parsed.value.query;
    var params: seq<SqlValue> := [];
    var queryString := ListSelect;
    if query.Some? && query.value != "" {
      queryString := queryString + TitleLike;
      params := params + [Text("%" + query.value + "%")];
    }
    assert Statement(queryString, params) == TitleFiltered(ListSelect, query);
    if limit.Some? && limit.value != 0 {
      queryString := queryString + LimitClause;
      params := params + [Int(limit.value)];
    }
    var s := Statement(queryString, params);
    if storeError.Some? {
      return Outcome(Fail(StoreError(storeError.value)), [s]);
    }
    return Outcome(Response(200, QueryRowsJson), [s]);
  }

  /** No column of a SELECT list holds a placeholder. */
  lemma ColumnTextPlain(c: Column)
    ensures NoPlaceholder(ColumnText(c))
  {
    match c
    case Stored(f) => StoredColumnPlain(f);
    case HostId => assert NoPlaceholder("event_host_id AS host_id");
    case Slug => assert NoPlaceholder("event_slug AS slug");
    case IsEnrolled => EnrolledFlagPlain();
  }

  lemma StoredColumnPlain(f: Field)
    ensures NoPlaceholder(ColumnText(Stored(f)))
  {
    if f != Id {
      assert NoPlaceholder(Key(f));
      NoPlaceholderConcat("event_", Key(f));
      NoPlaceholderConcat("event_" + Key(f), " AS ");
      NoPlaceholderConcat("event_" + Key(f) + " AS ", Key(f));
    }
  }

  lemma EnrolledFlagPlain()
    ensures NoPlaceholder(EnrolledFlag)
  {
    NoPlaceholderConcat("CASE WHEN user_events.user_id ", "IS NOT NULL THEN TRUE ELSE FALSE ");
    NoPlaceholderConcat("CASE WHEN user_events.user_id " + "IS NOT NULL THEN TRUE ELSE FALSE ", "END AS is_enrolled");
  }

  /** The enrollment join holds the one `?` for the caller's id. */
  lemma JoinEnrollmentCount()
    ensures Placeholders(JoinEnrollment) == 1
  {
    var a, b, c := "LEFT JOIN user_events ON events.id ", "= user_events.event_id AND ", "user_events.user_id = ";
    NoPlaceholderConcat(a, b);
    NoPlaceholderConcat(a + b, c);
    TrailingPlaceholder(a + b + c);
    NoPlaceholderCount(" ");
    PlaceholdersAppend(a + b + c + "?", " ");
  }

  lemma SelectTextPlain(cs: seq<Column>)
    ensures NoPlaceholder(SelectText(cs))
  {
    var texts := ColumnTexts(cs);
    ColumnTextsPlain(cs);
    JoinNoPlaceholder(texts, ", ");
    NoPlaceholderConcat("SELECT ", Join(texts, ", "));
    NoPlaceholderConcat("SELECT " + Join(texts, ", "), " FROM events ");
  }

  /** A clause that ends in its only placeholder. */
  lemma TrailingPlaceholder(prefix: string)
    requires NoPlaceholder(prefix)
    ensures Placeholders(prefix + "?") == 1
  {
    NoPlaceholderCount(prefix);
    PlaceholdersAppend(prefix, "?");
  }

  /** A SELECT list of columns holds no `?`. */
  lemma SelectCount(cs: seq<Column>)
    ensures Placeholders(SelectText(cs)) == 0
  {
    SelectTextPlain(cs);
    NoPlaceholderCount(SelectText(cs));
  }

  lemma ClauseCounts()
    ensures Placeholders(TitleLike) == 1 && Placeholders(LimitClause) == 1 && Placeholders(SlugFilter) == 1
  {
    TrailingPlaceholder("WHERE event_title LIKE ");
    TrailingPlaceholder("LIMIT ");
    TrailingPlaceholder("WHERE event_slug = ");
  }

  lemma CountThree(a: string, b: string, c: string)
    ensures Placeholders(a + b + c) == Placeholders(a) + Placeholders(b) + Placeholders(c)
  {
    PlaceholdersAppend(a, b);
    PlaceholdersAppend(a + b, c);
  }

  /** The listing holds one `?` per parameter. */
  lemma ListingPlaceholders(limit: Option<int>, query: Option<string>)
    ensures Placeholders(EventsListing(limit, query).sql) == |EventsListing(limit, query).params|
  {
    SelectCount(EventColumns);
    ListingFromPlaceholders(ListSelect, limit, query);
  }

  lemma ListingFromPlaceholders(select: string, limit: Option<int>, query: Option<string>)
    requires Placeholders(select) == 0
    ensures Placeholders(ListingFrom(select, limit, query).sql) == |ListingFrom(select, limit, query).params|
  {
    ListingShape(select, limit, query);
    ClauseCounts();
    if HasQuery(query) && HasLimit(limit) {
      CountThree(select, TitleLike, LimitClause);
    } else if HasQuery(query) {
      PlaceholdersAppend(select, TitleLike);
    } else if HasLimit(limit) {
      PlaceholdersAppend(select, LimitClause);
    }
  }

  /** getEvent's query holds one `?` per parameter, signed in or not. */
  lemma GetEventPlaceholders(slug: string, user: Option<Principal>)
    ensures Placeholders(GetEventStatement(slug, user).sql) == |GetEventStatement(slug, user).params|
  {
    SelectCount(Projection(user.Some?));
    ClauseCounts();
    if user.Some? {
      JoinEnrollmentCount();
      CountThree(SelectText(Projection(true)), JoinEnrollment, SlugFilter);
    } else {
      PlaceholdersAppend(SelectText(Projection(false)), SlugFilter);
    }
  }
}
