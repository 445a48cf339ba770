/**
 * Who may use the administrator commands, and which interface language a
 * user gets: the staff id list read from the environment, `is_staff`,
 * `can_admin`, `pick_default_lang` and the language check of `set_lang`.
 */
module Access {
  import opened Wrappers
  import opened Text

  // ---------------------------------------------------------------------
  // The staff id list

  /** The fields of an id list: ';' is read as ',' and the text is split on ','. */
  function IdFields(s: string): seq<string> {
    Split(ReplaceChar(s, ';', ','), ',')
  }

  /** The id one field names: the field, stripped, when it is all digits. */
  function FieldId(field: string): (r: set<int>)
    ensures forall n :: n in r ==> n >= 0
  {
    var f := Strip(field);
    if IsDigits(f) then {DigitsValue(f)} else {}
  }

  /** The ids that `idOf` finds in a sequence of fields, taken together. */
  function Collect(fields: seq<string>, idOf: string -> set<int>): set<int> {
    if fields == [] then {}
    else Collect(fields[..|fields| - 1], idOf) + idOf(fields[|fields| - 1])
  }

  /** The ids named by a sequence of fields. */
  function FieldIds(fields: seq<string>): set<int> {
    Collect(fields, FieldId)
  }

  /** The ids `_parse_ids` returns for the text `s`. */
  function StaffIdsOf(s: string): set<int> {
    FieldIds(IdFields(s))
  }

  /** Taking one more field adds the ids that field names. */
  lemma CollectSnoc(fields: seq<string>, i: nat, idOf: string -> set<int>)
    requires i < |fields|
    ensures Collect(fields[..i + 1], idOf) == Collect(fields[..i], idOf) + idOf(fields[i])
  {
    assert fields[..i + 1][..i] == fields[..i];
  }

  /** `_parse_ids`: collects, field by field, every field that is a number. */
  method ParseIds(s: string) returns (ids: set<int>)
    ensures ids == StaffIdsOf(s)
  {
    ids := {};
    var parts := Split(ReplaceChar(s, ';', ','), ',');
    for i := 0 to |parts|
      invariant ids == FieldIds(parts[..i])
    {
      var part := Strip(parts[i]);
      if IsDigits(part) {
        ids := ids + {DigitsValue(part)};
      }
      CollectSnoc(parts, i, FieldId);
    }
    assert parts[..|parts|] == parts;
  }

  /** A field names `n` exactly when, stripped, it is the digits of `n`. */
  predicate NamesId(field: string, n: int) {
    var f := Strip(field);
    IsDigits(f) && DigitsValue(f) == n
  }

  lemma FieldIdNames(field: string, n: int)
    ensures n in FieldId(field) <==> NamesId(field, n)
  {
  }

  /** An id is collected iff the id function finds it in some field. */
  lemma {:induction false} CollectMembership(fields: seq<string>, idOf: string -> set<int>, n: int)
    ensures n in Collect(fields, idOf) <==> exists i :: 0 <= i < |fields| && n in idOf(fields[i])
  {
    if fields != [] {
      var k := |fields| - 1;
      var init := fields[..k];
      CollectMembership(init, idOf, n);
      if n in Collect(init, idOf) {
        var i :| 0 <= i < |init| && n in idOf(init[i]);
        assert fields[i] == init[i];
      }
      if exists i :: 0 <= i < |fields| && n in idOf(fields[i]) {
        var i :| 0 <= i < |fields| && n in idOf(fields[i]);
        if i < k {
          assert init[i] == fields[i];
        }
      }
    }
  }

  /** An id is in the staff list iff some field of the list, stripped, is its digits. */
  lemma StaffIdsOfMembership(s: string, n: int)
    ensures n in StaffIdsOf(s) <==> exists f :: f in IdFields(s) && NamesId(f, n)
  {
    if n in StaffIdsOf(s) {
      var f := FieldNaming(s, n);
    }
    if exists f :: f in IdFields(s) && NamesId(f, n) {
      var f :| f in IdFields(s) && NamesId(f, n);
      NamedIsCollected(s, f, n);
    }
  }

  /** A field of the list that names an id the list holds. */
  lemma FieldNaming(s: string, n: int) returns (f: string)
    requires n in StaffIdsOf(s)
    ensures f in IdFields(s) && NamesId(f, n)
  {
    var fields := IdFields(s);
    CollectMembership(fields, FieldId, n);
    var i :| 0 <= i < |fields| && n in FieldId(fields[i]);
    f := fields[i];
    FieldIdNames(f, n);
  }

  /** An id named by a field of the list is in the list. */
  lemma NamedIsCollected(s: string, f: string, n: int)
    requires f in IdFields(s) && NamesId(f, n)
    ensures n in StaffIdsOf(s)
  {
    var fields := IdFields(s);
    var i :| 0 <= i < |fields| && fields[i] == f;
    FieldIdNames(f, n);
    CollectMembership(fields, FieldId, n);
  }

  /** The ids of two runs of fields together are the ids of each. */
  lemma {:induction false} CollectAppend(p: seq<string>, q: seq<string>, idOf: string -> set<int>)
    ensures Collect(p + q, idOf) == Collect(p, idOf) + Collect(q, idOf)
    decreases |q|
  {
    if q == [] {
      assert p + q == p;
    } else {
      var q' := q[..|q| - 1];
      CollectAppend(p, q', idOf);
      assert (p + q)[..|p + q| - 1] == p + q';
      assert (p + q)[|p + q| - 1] == q[|q| - 1];
    }
  }

  lemma ReplaceCharAppend(a: string, b: string, c: char, x: char, y: char)
    ensures ReplaceChar(a + [c] + b, x, y)
            == ReplaceChar(a, x, y) + [if c == x then y else c] + ReplaceChar(b, x, y)
  {
  }

  /** An id list written as two lists joined by ';' or ',' names the ids of both. */
  lemma StaffIdsOfJoin(a: string, b: string, sep: char)
    requires sep == ';' || sep == ','
    ensures StaffIdsOf(a + [sep] + b) == StaffIdsOf(a) + StaffIdsOf(b)
  {
    var ra, rb := ReplaceChar(a, ';', ','), ReplaceChar(b, ';', ',');
    ReplaceCharAppend(a, b, sep, ';', ',');
    SplitConcat(ra, rb, ',');
    CollectAppend(Split(ra, ','), Split(rb, ','), FieldId);
  }

  /** A list holding one number, with whitespace around it, names that number alone. */
  lemma StaffIdsOfOne(n: nat, pre: string, post: string)
    requires AllSpace(pre) && AllSpace(post)
    requires ';' !in pre + post && ',' !in pre + post
    ensures StaffIdsOf(pre + NatToDigits(n) + post) == {n}
  {
    var d := NatToDigits(n);
    var s := pre + d + post;
    DigitsPlain(d);
    DigitsRoundTrip(n);
    assert ';' !in s && ',' !in s;
    assert ReplaceChar(s, ';', ',') == s;
    SplitNoSep(s, ',');
    assert IdFields(s) == [s];
    assert Strip(s) == d by { StripPadded(pre, d, post); }
    assert FieldId(s) == {n};
    CollectSnoc([s], 0, FieldId);
    assert [s][..1] == [s] && [s][..0] == [];
  }

  // ---------------------------------------------------------------------
  // Staff and administrator rights

  /**
   * The deployment settings the rights depend on: the `STAFF_USER_IDS`
   * text, `ADMIN_USER_ID` and `ADMIN_CHAT_ID` (0 when unset).
   */
  datatype Config = Config(staffUserIds: string, adminUserId: int, adminChatId: int)

  /** `STAFF_USER_IDS` after start-up: the listed ids, plus the admin user when set. */
  function StaffSet(cfg: Config): (r: set<int>)
    ensures cfg.adminUserId != 0 ==> cfg.adminUserId in r
    ensures forall n :: n in r ==> n == cfg.adminUserId || n in StaffIdsOf(cfg.staffUserIds)
  {
    StaffIdsOf(cfg.staffUserIds) + (if cfg.adminUserId != 0 then {cfg.adminUserId} else {})
  }

  /** `is_staff`: a present, non-zero user id in the staff set. */
  predicate IsStaff(userId: Option<int>, cfg: Config) {
    userId.Some? && userId.value != 0 && userId.value in StaffSet(cfg)
  }

  /**
   * `can_admin`: staff, writing either in a private chat or in the
   * configured administrators' chat (when one is configured).
   */
  predicate CanAdmin(userId: Option<int>, chatId: Option<int>, chatType: Option<string>, cfg: Config) {
    IsStaff(userId, cfg)
    && (chatType == Some("private") || (cfg.adminChatId != 0 && chatId == Some(cfg.adminChatId)))
  }

  /**
   * Administrator rights, spelled out in terms of the raw settings: a
   * non-zero user who is the admin user or is named by some field of the
   * staff list, in a private chat or the administrators' chat.
   */
  lemma CanAdminIff(user: Option<int>, chatId: Option<int>, chatType: Option<string>, cfg: Config)
    ensures CanAdmin(user, chatId, chatType, cfg) <==>
              && user.Some? && user.value != 0
              && (|| user.value == cfg.adminUserId
                  || exists f :: f in IdFields(cfg.staffUserIds) && NamesId(f, user.value))
              && (|| chatType == Some("private")
                  || (cfg.adminChatId != 0 && chatId == Some(cfg.adminChatId)))
  {
    if user.Some? {
      StaffIdsOfMembership(cfg.staffUserIds, user.value);
    }
  }

  /** User id 0 is never staff, even when the staff list names 0. */
  lemma ZeroIsNeverStaff(cfg: Config)
    ensures !IsStaff(Some(0), cfg)
    ensures 0 in StaffIdsOf("0")
  {
    StaffIdsOfOne(0, "", "");
    assert "" + NatToDigits(0) + "" == "0";
  }

  /** Without an administrators' chat, administrator commands work only in private chats. */
  lemma NoAdminChatMeansPrivateOnly(user: Option<int>, chatId: Option<int>, chatType: Option<string>, cfg: Config)
    requires cfg.adminChatId == 0
    requires CanAdmin(user, chatId, chatType, cfg)
    ensures chatType == Some("private")
  {
  }

  // ---------------------------------------------------------------------
  // Interface language

  datatype Lang = Ru | Lv | En

  /** The language codes the bot stores (`LANGS`). */
  function LangCode(l: Lang): string {
    match l
    case Ru => "ru"
    case Lv => "lv"
    case En => "en"
  }

  predicate IsLangCode(code: string) {
    code == "ru" || code == "lv" || code == "en"
  }

  /**
   * `pick_default_lang`: Russian when the client reports no language,
   * Latvian for Latvian and Lithuanian clients, Russian for Russian ones,
   * English otherwise.
   */
  function PickDefaultLang(code: Option<string>): (l: Lang)
    ensures code.None? || code == Some("") ==> l == Ru
    ensures code.Some? && code.value != "" ==>
              (l == Ru <==> StartsWith(Lower(code.value), "ru"))
    ensures code.Some? && code.value != "" ==>
              (l == Lv <==> StartsWith(Lower(code.value), "lv") || StartsWith(Lower(code.value), "lt"))
    ensures l == En <==> code.Some? && code.value != "" && !StartsWith(Lower(code.value), "ru")
                         && !StartsWith(Lower(code.value), "lv") && !StartsWith(Lower(code.value), "lt")
  {
    if code.None? || code.value == "" then Ru
    else
      var c := Lower(code.value);
      if StartsWith(c, "ru") then Ru
      else if StartsWith(c, "lv") || StartsWith(c, "lt") then Lv
      else En
  }

  /** `set_lang`: a code outside `LANGS` is stored as "ru". */
  function NormaliseLang(code: string): (l: Lang)
    ensures IsLangCode(code) ==> LangCode(l) == code
    ensures !IsLangCode(code) ==> l == Ru
  {
    if code == "lv" then Lv else if code == "en" then En else Ru
  }

  /** Storing a language and reading its code back gives the same language. */
  lemma LangRoundTrip(l: Lang)
    ensures NormaliseLang(LangCode(l)) == l
    ensures IsLangCode(LangCode(l))
  {
  }

  /** The choice of language ignores the case of the client's language code. */
  lemma PickDefaultLangIgnoresCase(s: string)
    ensures PickDefaultLang(Some(Upper(s))) == PickDefaultLang(Some(s))
  {
    LowerUpper(s);
  }

  /** Only the first two letters of the client's language code matter. */
  lemma PickDefaultLangFirstTwo(s: string)
    requires |s| >= 2
    ensures PickDefaultLang(Some(s)) == PickDefaultLang(Some(s[..2]))
  {
    assert Lower(s)[..2] == Lower(s[..2]);
  }
}
