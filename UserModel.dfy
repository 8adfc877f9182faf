/** The user document (`User.js`): a user's name and mail are normalised as the schema
    stores them, and a new user receives the next id of the form "usuario_NNNN" in a
    pre-save hook, computed from the id of the user the database returns as the last one.
    That database query is a parameter here (`lastUser`); the query itself is modelled as
    `LatestId`, the greatest stored id in the database's string order. */
module UserModel {
  import opened Options
  import opened JsText

  const IdPrefix: string := "usuario_"

  /** `usuario_${n.toString().padStart(4, '0')}`. */
  function FormatId(n: int): string {
    IdPrefix + PadStart(IntToString(n), 4, '0')
  }

  /** `parseInt(id.split('_')[1])`: the number after the first '_'; an id with no '_' has no
      second part, and `parseInt(undefined)` is `NaN`. */
  function IdNumber(id: string): Option<int> {
    var parts := Split(id, '_');
    if |parts| >= 2 then ParseInt(parts[1]) else None
  }

  /** The id the hook gives a new user, after `lastUser`: "usuario_0001" for the first user,
      otherwise the last number plus one; `NaN + 1` is `NaN`, which pads to "0NaN". */
  function NextId(lastUser: Option<string>): string {
    match lastUser
    case None => "usuario_0001"
    case Some(last) =>
      match IdNumber(last)
      case None => IdPrefix + "0NaN"
      case Some(n) => FormatId(n + 1)
  }

  /** The number part of an id: at least four digits, and the whole numeral of `n`. */
  lemma IdShape(n: nat)
    ensures var id := FormatId(n);
      && id[..8] == IdPrefix && AllDigits(id[8..])
      && |id| == 8 + (if |NatToString(n)| >= 4 then |NatToString(n)| else 4)
      && id[|id| - |NatToString(n)|..] == NatToString(n)
      && forall i :: 8 <= i < |id| - |NatToString(n)| ==> id[i] == '0'
  {
    var d := PadStart(NatToString(n), 4, '0');
    PaddedNumeral(NatToString(n), 4);
    assert FormatId(n) == IdPrefix + d;
    assert FormatId(n)[8..] == d;
  }

  /** Formatting then parsing gives the number back. */
  lemma IdRoundTrip(n: nat)
    ensures IdNumber(FormatId(n)) == Some(n)
  {
    var d := PadStart(NatToString(n), 4, '0');
    PaddedDigits(n);
    IdParts(d);
    ParseIntOfDigits(d);
  }

  /** The padded numeral is a non-empty run of digits worth `n`. */
  lemma PaddedDigits(n: nat)
    ensures var d := PadStart(NatToString(n), 4, '0');
      d != [] && AllDigits(d) && DecValue(d) == n && '_' !in d
  {
    var d := PadStart(NatToString(n), 4, '0');
    PaddedNumeral(NatToString(n), 4);
    assert '_' !in d by {
      assert forall i :: 0 <= i < |d| ==> IsDigit(d[i]);
    }
  }

  /** An id whose number part has no '_' splits into the prefix word and that part. */
  lemma IdParts(d: string)
    requires '_' !in d
    ensures Split(IdPrefix + d, '_') == ["usuario", d]
  {
    assert IdPrefix + d == "usuario" + ['_'] + d;
    SplitAtFirst("usuario", d, '_');
    SplitWithoutSeparator(d, '_');
  }

  /** The first user is number 1. */
  lemma FirstId()
    ensures NextId(None) == FormatId(1) && IdNumber(NextId(None)) == Some(1)
  {
    PaddedOne();
    IdRoundTrip(1);
  }

  lemma PaddedOne()
    ensures FormatId(1) == "usuario_0001"
  {
    assert NatToString(1) == "1";
    assert PadStart("1", 4, '0') == "0001";
  }

  /** After a well-formed id, the next number is exactly one more. */
  lemma NextIdIncrements(last: string, n: int)
    requires IdNumber(last) == Some(n) && n >= -1
    ensures NextId(Some(last)) == FormatId(n + 1)
    ensures IdNumber(NextId(Some(last))) == Some(n + 1)
  {
    var m: nat := n + 1;
    assert NextId(Some(last)) == FormatId(m);
    IdRoundTrip(m);
  }

  /** Below 10000 every id has the same width, and the database's string order on ids is
      the order of their numbers; this is what makes the descending `_id` sort find the
      last user. */
  lemma IdOrder(a: nat, b: nat)
    requires a < 10000 && b < 10000
    ensures LexLess(FormatId(a), FormatId(b)) <==> a < b
  {
    var da, db := PadStart(NatToString(a), 4, '0'), PadStart(NatToString(b), 4, '0');
    assert Pow10(4) == 10000;
    NumeralFits(a, 4);
    NumeralFits(b, 4);
    PaddedNumeral(NatToString(a), 4);
    PaddedNumeral(NatToString(b), 4);
    LexCommonPrefix(IdPrefix, da, db);
    SameWidthOrder(da, db);
  }

  /** No two numbers share an id. */
  lemma IdInjective(a: nat, b: nat)
    requires FormatId(a) == FormatId(b)
    ensures a == b
  {
    IdRoundTrip(a);
    IdRoundTrip(b);
  }

  // ---------------------------------------------------------------------------
  // Normalisation

  /** The schema stores `username` trimmed (`trim: true`) and `mail` trimmed, then
      lower-cased (`trim: true, lowercase: true`). Storing a stored value again changes
      nothing. */
  lemma NormalizationIdempotent(s: string)
    ensures Trim(Trim(s)) == Trim(s)
    ensures ToLower(Trim(ToLower(Trim(s)))) == ToLower(Trim(s))
  {
    TrimIdempotent(s);
    var t := Trim(s);
    TrimOfLowered(t);
    ToLowerIdempotent(t);
  }

  /** A stored mail has no capital letter and no white space at either end. */
  lemma StoredMailShape(s: string)
    ensures var m := ToLower(Trim(s));
      && (forall i :: 0 <= i < |m| ==> !IsUpper(m[i]))
      && (m == [] || (!IsSpace(m[0]) && !IsSpace(m[|m| - 1])))
  {
    var t := Trim(s);
    var m := ToLower(t);
    forall i | 0 <= i < |m|
      ensures !IsUpper(m[i])
    {
      LowerIsNotUpper(t[i]);
    }
    TrimmedEnds(s);
    if m != [] {
      LowerKeepsSpaces(t[0]);
      LowerKeepsSpaces(t[|t| - 1]);
    }
  }

  /** `required: true` on the three fields, checked on the values as stored: a string is
      missing when it is empty. */
  predicate RequiredFields(username: string, mail: string, password: string) {
    username != [] && mail != [] && password != []
  }

  /** On the submitted values: a name or mail of white space only is missing once trimmed. */
  lemma RequiredOfSubmitted(name: string, address: string, password: string)
    ensures RequiredFields(Trim(name), ToLower(Trim(address)), password)
        <==> !Blank(name) && !Blank(address) && password != []
  {
    TrimEmptyIffBlank(name);
    TrimEmptyIffBlank(address);
  }

  /** A user document as the hook sees it. */
  class UserDocument {
    var id: string
    const isNew: bool
    const username: string
    const mail: string
    const password: string

    /** A document built from the submitted fields; the schema normalises name and mail. */
    constructor (id: string, isNew: bool, name: string, address: string, password: string)
      ensures this.id == id && this.isNew == isNew && this.password == password
      ensures username == Trim(name) && mail == ToLower(Trim(address))
    {
      this.isNew := isNew;
      this.password := password;
      username := Trim(name);
      mail := ToLower(Trim(address));
      new;
      this.id := id;
    }

    /** The pre-save hook, given the user the query returned: a new document gets the next
        id; any other keeps the one it has. */
    method PreSave(lastUser: Option<string>)
      modifies this`id
      ensures id == if isNew then NextId(lastUser) else old(id)
    {
      if isNew {
        id := NextId(lastUser);
      }
    }

    /** `save()`: Mongoose validates the required fields first and runs the pre-save hook only
        when they hold; the database then refuses a new document whose id is already stored
        (`_id`) or whose mail is (the `unique` index on mail). */
    method Save(lastUser: Option<string>, storedIds: seq<string>, storedMails: seq<string>)
      returns (saved: bool)
      modifies this`id
      ensures !RequiredFields(username, mail, password) ==> id == old(id)
      ensures RequiredFields(username, mail, password) ==>
        id == if isNew then NextId(lastUser) else old(id)
      ensures saved <==>
        RequiredFields(username, mail, password) && (isNew ==> id !in storedIds && mail !in storedMails)
    {
      if !RequiredFields(username, mail, password) {
        return false;
      }
      PreSave(lastUser);
      saved := !isNew || (id !in storedIds && mail !in storedMails);
    }

    /** `save()` with the last user found by number: when every stored id is well formed, a
        new document is refused only for a missing field or a mail already stored, never for
        its id. */
    method SaveAmong(storedIds: seq<string>, storedMails: seq<string>) returns (saved: bool)
      modifies this`id
      ensures (forall x :: x in storedIds ==> WellFormedId(x)) ==>
        (saved <==> RequiredFields(username, mail, password) && (isNew ==> mail !in storedMails))
    {
      var latest := LatestIdByNumber(storedIds);
      saved := Save(latest, storedIds, storedMails);
      if isNew && forall x :: x in storedIds ==> WellFormedId(x) {
        NextIdByNumberIsFresh(storedIds);
      }
    }

    /** The hook with the last user found by number among the stored ids `ids`: a new
        document's id is then one no stored user has. */
    method PreSaveAmong(ids: seq<string>)
      modifies this`id
      ensures id == if isNew then NextId(LatestIdByNumber(ids)) else old(id)
      ensures isNew && (forall x :: x in ids ==> WellFormedId(x)) ==> id !in ids
    {
      PreSave(LatestIdByNumber(ids));
      if isNew && forall x :: x in ids ==> WellFormedId(x) {
        NextIdByNumberIsFresh(ids);
      }
    }
  }

  // ---------------------------------------------------------------------------
  // The "last user" query

  /** Every id of `ids` is at most `m`, and `m` is below `y`: then every id is at most `y`. */
  lemma BelowAll(ids: seq<string>, m: string, y: string)
    requires forall x :: x in ids ==> x == m || LexLess(x, m)
    requires LexLess(m, y)
    ensures forall x :: x in ids ==> x == y || LexLess(x, y)
  {
    forall x | x in ids
      ensures x == y || LexLess(x, y)
    {
      if x != m {
        LexTransitive(x, m, y);
      }
    }
  }

  lemma NotLess(a: string, b: string)
    ensures !LexLess(a, b) ==> a == b || LexLess(b, a)
  {
    if a != b {
      LexTotal(a, b);
    }
  }

  /** `findOne({}, {}, {sort: {_id: -1}})` over the stored ids: the greatest in string order,
      none when there is no user. */
  function LatestId(ids: seq<string>): (r: Option<string>)
    ensures r.None? <==> ids == []
    ensures r.Some? ==> r.value in ids && forall x :: x in ids ==> x == r.value || LexLess(x, r.value)
  {
    if ids == [] then None
    else
      var rest := LatestId(ids[1..]);
      assert forall x :: x in ids ==> x == ids[0] || x in ids[1..];
      if rest.None? then
        Some(ids[0])
      else if LexLess(rest.value, ids[0]) then
        BelowAll(ids[1..], rest.value, ids[0]);
        Some(ids[0])
      else
        NotLess(rest.value, ids[0]);
        rest
  }

  /** The id the hook gives the next user when the last user is found by that query. */
  function NextIdAsQueried(ids: seq<string>): string {
    NextId(LatestId(ids))
  }

  /** Past 9999 the number part grows a fifth digit and string order stops following
      numeric order: with users 9999 and 10000 stored, the query returns 9999, and the next
      user would get the id 10000 again. */
  lemma QueryRepeatsAnId()
    ensures var ids := [FormatId(9999), FormatId(10000)];
      && LatestId(ids) == Some(FormatId(9999))
      && NextIdAsQueried(ids) == FormatId(10000)
      && NextIdAsQueried(ids) in ids
  {
    WideIdsOutOfOrder();
    LatestOfTwo(FormatId(9999), FormatId(10000));
    IdRoundTrip(9999);
  }

  /** The ids of 10000 and 9999 compare the wrong way round. */
  lemma WideIdsOutOfOrder()
    ensures LexLess(FormatId(10000), FormatId(9999))
  {
    Numeral9999();
    Numeral10000();
    assert PadStart("9999", 4, '0') == "9999" && PadStart("10000", 4, '0') == "10000";
    LexCommonPrefix(IdPrefix, "10000", "9999");
    assert LexLess("10000", "9999");
  }

  lemma Numeral9999()
    ensures NatToString(9999) == "9999"
  {
    assert NatToString(9) == "9";
    assert NatToString(99) == NatToString(9) + ['9'];
    assert NatToString(999) == NatToString(99) + ['9'];
    assert NatToString(9999) == NatToString(999) + ['9'];
  }

  lemma Numeral10000()
    ensures NatToString(10000) == "10000"
  {
    assert NatToString(1) == "1";
    assert NatToString(10) == NatToString(1) + ['0'];
    assert NatToString(100) == NatToString(10) + ['0'];
    assert NatToString(1000) == NatToString(100) + ['0'];
    assert NatToString(10000) == NatToString(1000) + ['0'];
  }

  /** Of two ids, the query returns the one the other is below. */
  lemma LatestOfTwo(a: string, b: string)
    requires LexLess(b, a)
    ensures LatestId([a, b]) == Some(a)
  {
    assert [a, b][1..] == [b];
    assert [b][1..] == [];
  }

  /** An id as the hook writes it: the formatted numeral of a number. */
  predicate WellFormedId(id: string) {
    IdNumber(id).Some? && IdNumber(id).value >= 0 && id == FormatId(IdNumber(id).value)
  }

  /** The stored id with the greatest number, ignoring ids with no number; none when no id
      has a number. */
  function LatestIdByNumber(ids: seq<string>): (r: Option<string>)
    ensures r.None? <==> forall x :: x in ids ==> IdNumber(x).None?
    ensures r.Some? ==>
      && r.value in ids && IdNumber(r.value).Some?
      && forall x :: x in ids && IdNumber(x).Some? ==> IdNumber(x).value <= IdNumber(r.value).value
  {
    if ids == [] then None
    else
      var rest := LatestIdByNumber(ids[1..]);
      var head := IdNumber(ids[0]);
      assert forall x :: x in ids ==> x == ids[0] || x in ids[1..];
      if head.None? then rest
      else if rest.None? || IdNumber(rest.value).value < head.value then Some(ids[0])
      else rest
  }

  /** With the last user chosen by number, the next id is new, whatever the number of
      users: it is never one already stored. */
  lemma NextIdByNumberIsFresh(ids: seq<string>)
    requires forall x :: x in ids ==> WellFormedId(x)
    ensures NextId(LatestIdByNumber(ids)) !in ids
  {
    var latest := LatestIdByNumber(ids);
    if latest.Some? {
      NextIdIncrements(latest.value, IdNumber(latest.value).value);
    }
  }

  /** While every number is below 10000 the query as written already finds the user with
      the greatest number. */
  lemma QueriesAgreeBelow10000(ids: seq<string>)
    requires forall x :: x in ids ==> WellFormedId(x) && IdNumber(x).value < 10000
    ensures LatestId(ids) == LatestIdByNumber(ids)
  {
    if ids != [] {
      var y := LatestId(ids).value;
      var z := LatestIdByNumber(ids).value;
      var ny, nz := IdNumber(y).value, IdNumber(z).value;
      if y != z {
        assert LexLess(z, y);
        IdOrder(nz, ny);
        assert false;
      }
    }
  }
}
