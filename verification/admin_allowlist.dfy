/**
  The admin allowlist: a comma-separated list of e-mail addresses held in
  the `ADMIN_EMAILS` setting, passed in here explicitly. Two checks read it:
  `isAdmin` (lib/supabase/is-admin.ts), which trims and lowercases each
  entry and lowercases the user's e-mail, and the admin-setup page
  (app/admin-setup/page.tsx), which only trims and so is case-sensitive.
 */
module AdminAllowlist {
  import opened JsValue
  import opened JsString
  import opened Records

  /**
    `ADMIN_EMAILS?.split(",") || []`: an absent setting has no entries; a
    present one is cut at every comma, so that joining the comma-free
    entries with "," gives it back.
   */
  function RawEntries(setting: Option<string>): (entries: seq<string>)
    ensures setting.None? ==> entries == []
    ensures setting.Some? ==> |entries| >= 1 && Join(entries, ",") == setting.value
    ensures forall i :: 0 <= i < |entries| ==> ',' !in entries[i]
  {
    if setting.None? then []
    else
      SplitJoin(setting.value, ",");
      SplitPiecesAvoidChar(setting.value, ',');
      Split(setting.value, ",")
  }

  /** The entries as `isAdmin` compares them: `email.trim().toLowerCase()`. */
  function NormalisedEntries(setting: Option<string>): (entries: seq<string>)
    ensures |entries| == |RawEntries(setting)|
    ensures forall i :: 0 <= i < |entries| ==> entries[i] == ToLower(Trim(RawEntries(setting)[i]))
  {
    var raw := RawEntries(setting);
    seq(|raw|, i requires 0 <= i < |raw| => ToLower(Trim(raw[i])))
  }

  /** The entries as the admin-setup page compares them: `email.trim()`. */
  function TrimmedEntries(setting: Option<string>): (entries: seq<string>)
    ensures |entries| == |RawEntries(setting)|
    ensures forall i :: 0 <= i < |entries| ==> entries[i] == Trim(RawEntries(setting)[i])
  {
    var raw := RawEntries(setting);
    seq(|raw|, i requires 0 <= i < |raw| => Trim(raw[i]))
  }

  /** `user.email?.toLowerCase() || ""`. */
  function LoweredEmail(email: Option<string>): string {
    OrElse(if email.Some? then Some(ToLower(email.value)) else None, "")
  }

  /** Some entry of the setting equals `key` once trimmed and lowercased. */
  ghost predicate ListedIgnoringCase(setting: Option<string>, key: string) {
    exists i :: 0 <= i < |RawEntries(setting)| && ToLower(Trim(RawEntries(setting)[i])) == key
  }

  /** Some entry of the setting equals `key` once trimmed. */
  ghost predicate ListedExactly(setting: Option<string>, key: string) {
    exists i :: 0 <= i < |RawEntries(setting)| && Trim(RawEntries(setting)[i]) == key
  }

  /**
    `isAdmin(userId)`: false without a signed-in user or when the signed-in
    user is someone else; otherwise whether the user's lowercased e-mail
    (or "" when there is none) is one of the normalised entries.
   */
  function IsAdmin(session: Option<AuthUser>, userId: string, setting: Option<string>): (r: bool)
    ensures r ==> session.Some? && session.value.id == userId
    ensures session.Some? && session.value.id == userId ==>
              (r <==> ListedIgnoringCase(setting, LoweredEmail(session.value.email)))
  {
    if session.None? || session.value.id != userId then false
    else LoweredEmail(session.value.email) in NormalisedEntries(setting)
  }

  /**
    The admin-setup page's status line: None when there is no signed-in
    user (the page redirects to login), otherwise whether `user.email || ""`
    is exactly one of the trimmed entries.
   */
  function SetupStatus(session: Option<AuthUser>, setting: Option<string>): (r: Option<bool>)
    ensures r.None? <==> session.None?
    ensures r.Some? ==> (r.value <==> ListedExactly(setting, OrElse(session.value.email, "")))
  {
    if session.None? then None
    else Some(OrElse(session.value.email, "") in TrimmedEntries(setting))
  }

  /** Without the setting nobody is an admin, by either check. */
  lemma AbsentSettingAdmitsNoOne(session: Option<AuthUser>, userId: string)
    ensures !IsAdmin(session, userId, None)
    ensures session.Some? ==> SetupStatus(session, None) == Some(false)
  {
  }

  /** The lowercased e-mail is the lowercased `user.email || ""`. */
  lemma LoweredEmailOfDefault(email: Option<string>)
    ensures LoweredEmail(email) == ToLower(OrElse(email, ""))
  {
    if email.Some? && email.value != "" {
      assert |ToLower(email.value)| > 0;
    }
  }

  /** Whoever the admin-setup page calls an admin, `isAdmin` does too. */
  lemma SetupAdminIsAdmin(user: AuthUser, setting: Option<string>)
    requires SetupStatus(Some(user), setting) == Some(true)
    ensures IsAdmin(Some(user), user.id, setting)
  {
    var key := OrElse(user.email, "");
    var i :| 0 <= i < |RawEntries(setting)| && Trim(RawEntries(setting)[i]) == key;
    LoweredEmailOfDefault(user.email);
    assert ToLower(Trim(RawEntries(setting)[i])) == LoweredEmail(user.email);
  }

  /** A setting without a comma is a single entry. */
  lemma SingleEntry(entry: string)
    requires ',' !in entry
    ensures RawEntries(Some(entry)) == [entry]
  {
    NotIncludedWithoutFirstChar(entry, ",");
    SplitWithoutSeparator(entry, ",");
  }

  /** With a single entry, both checks compare the user's e-mail with that entry alone. */
  lemma SingleEntryChecks(user: AuthUser, entry: string)
    requires ',' !in entry
    ensures IsAdmin(Some(user), user.id, Some(entry)) <==> LoweredEmail(user.email) == ToLower(Trim(entry))
    ensures SetupStatus(Some(user), Some(entry)) == Some(OrElse(user.email, "") == Trim(entry))
  {
    SingleEntry(entry);
    assert NormalisedEntries(Some(entry)) == [ToLower(Trim(entry))];
    assert TrimmedEntries(Some(entry)) == [Trim(entry)];
  }

  /**
    The converse fails: an entry differing from the user's e-mail only in
    letter case admits the user under `isAdmin` but not on the admin-setup page.
   */
  lemma CaseOnlyMatchIsNotASetupAdmin(user: AuthUser, entry: string)
    requires user.email.Some? && user.email.value != entry && ToLower(user.email.value) == ToLower(entry)
    requires IsTrimmed(entry) && ',' !in entry
    ensures IsAdmin(Some(user), user.id, Some(entry))
    ensures SetupStatus(Some(user), Some(entry)) == Some(false)
  {
    SingleEntryChecks(user, entry);
    assert Trim(entry) == entry by { TrimOfTrimmed(entry); }
    assert OrElse(user.email, "") == user.email.value;
    assert LoweredEmail(user.email) == ToLower(user.email.value) by { LoweredEmailOfDefault(user.email); }
  }

  /** Membership is exact: an e-mail that is only part of an entry does not match it. */
  lemma SubstringOfEntryIsNotListed(user: AuthUser, entry: string)
    requires user.email.Some? && Includes(entry, user.email.value) && |user.email.value| < |entry|
    requires IsTrimmed(entry) && ',' !in entry
    ensures !IsAdmin(Some(user), user.id, Some(entry))
  {
    SingleEntryChecks(user, entry);
    assert Trim(entry) == entry by { TrimOfTrimmed(entry); }
    assert OrElse(user.email, "") == user.email.value;
    assert LoweredEmail(user.email) == ToLower(user.email.value) by { LoweredEmailOfDefault(user.email); }
    assert |ToLower(user.email.value)| < |ToLower(entry)|;
  }

  /** Whitespace around an entry and the case of either side make no difference to `isAdmin`. */
  lemma PaddedEntryMatchesAnyCase(user: AuthUser, before: string, entry: string, after: string)
    requires user.email.Some? && ToLower(user.email.value) == ToLower(entry)
    requires entry != "" && IsTrimmed(entry) && AllWhitespace(before) && AllWhitespace(after)
    requires ',' !in before + entry + after
    ensures IsAdmin(Some(user), user.id, Some(before + entry + after))
  {
    var s := before + entry + after;
    SingleEntryChecks(user, s);
    TrimPadded(before, entry, after);
    LoweredEmailOfDefault(user.email);
    assert OrElse(user.email, "") == user.email.value;
    assert LoweredEmail(user.email) == ToLower(entry);
  }

  /** Splitting a string that ends with the separator character leaves a final empty piece. */
  lemma {:induction false} TrailingSeparatorLeavesEmptyPiece(s: string, c: char)
    ensures var parts := Split(s + [c], [c]); parts[|parts| - 1] == ""
    decreases |s|
  {
    var t := s + [c];
    assert OccursAt(t, [c], |s|) by { assert t[|s|..|s| + 1] == [c]; }
    var i := IndexOf(t, [c]).value;
    SplitStep(t, [c], i);
    if i == |s| {
      assert t[i + 1..] == "";
    } else {
      assert t[i + 1..] == s[i + 1..] + [c];
      TrailingSeparatorLeavesEmptyPiece(s[i + 1..], c);
    }
  }

  /**
    An empty entry (a trailing comma, ", ," or a setting that is present but
    empty) makes every user without an e-mail address an admin under both checks.
   */
  lemma EmptyEntryAdmitsUsersWithoutEmail(user: AuthUser, setting: Option<string>)
    requires user.email.None?
    requires exists i :: 0 <= i < |RawEntries(setting)| && IsBlank(RawEntries(setting)[i])
    ensures IsAdmin(Some(user), user.id, setting)
    ensures SetupStatus(Some(user), setting) == Some(true)
  {
    var i :| 0 <= i < |RawEntries(setting)| && IsBlank(RawEntries(setting)[i]);
    assert NormalisedEntries(setting)[i] == ToLower("") == "";
    assert TrimmedEntries(setting)[i] == "";
    assert LoweredEmail(user.email) == "";
  }

  /** A setting ending in a comma has an empty entry. */
  lemma TrailingCommaGivesEmptyEntry(prefix: string)
    ensures var raw := RawEntries(Some(prefix + ","));
            IsBlank(raw[|raw| - 1])
  {
    TrailingSeparatorLeavesEmptyPiece(prefix, ',');
    assert prefix + "," == prefix + [','];
    var raw := RawEntries(Some(prefix + ","));
    assert raw == Split(prefix + [','], [',']);
    assert raw[|raw| - 1] == "";
    assert Trim("") == "";
  }
}
