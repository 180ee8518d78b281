/**
 * The application settings endpoint: one settings row (always user 1),
 * read with defaults and written through a field whitelist and three enum
 * checks.
 */
module Settings {
  import opened JsValues

  /** The only row the endpoint ever reads or writes. */
  const SettingsUser := 1

  /** The fields a POST may set, in the order they are copied. */
  const AllowedFields: seq<string> := ["language", "theme", "auto_save_interval", "results_per_page", "animation_speed"]

  /** The values answered when there is no row; the column defaults of the
      table are the same. */
  const DefaultSettings: map<string, JsValue> := map[
    "language" := Str("hu"),
    "theme" := Str("light"),
    "auto_save_interval" := Num(60.0),
    "results_per_page" := Num(25.0),
    "animation_speed" := Str("normal")]

  /** The whitelisted own properties of a body. */
  function Filtered(body: map<string, JsValue>): (d: map<string, JsValue>)
    ensures d.Keys <= set f | f in AllowedFields
    ensures forall f :: f in AllowedFields && f in body ==> f in d && d[f] == body[f]
  {
    map f | f in body && f in AllowedFields :: body[f]
  }

  predicate BadLanguage(d: map<string, JsValue>)
  {
    Truthy(Get(d, "language")) && Get(d, "language") != Str("en") && Get(d, "language") != Str("hu")
  }

  predicate BadTheme(d: map<string, JsValue>)
  {
    Truthy(Get(d, "theme")) && Get(d, "theme") != Str("light") && Get(d, "theme") != Str("dark")
  }

  predicate BadSpeed(d: map<string, JsValue>)
  {
    var v := Get(d, "animation_speed");
    Truthy(v) && v != Str("slow") && v != Str("normal") && v != Str("fast") && v != Str("off")
  }

  const LanguageError := "Invalid language. Use \"en\" or \"hu\"."
  const ThemeError := "Invalid theme. Use \"light\" or \"dark\"."
  const SpeedError := "Invalid animation speed."

  datatype SettingsResponse = Invalid(message: string) | ServerError | Saved(settings: map<string, JsValue>)

  class SettingsStore {
    var rows: map<int, map<string, JsValue>>

    constructor()
      ensures rows == map[]
    {
      rows := map[];
    }

    /** GET: the stored row, or the defaults. */
    function Current(): map<string, JsValue>
      reads this
    {
      if SettingsUser in rows then rows[SettingsUser] else DefaultSettings
    }

    /** GET: the stored row, or the defaults when there is none yet. */
    method GetSettings() returns (s: map<string, JsValue>)
      ensures SettingsUser !in rows ==> s == DefaultSettings
      ensures SettingsUser in rows ==> s == rows[SettingsUser]
    {
      s := Current();
    }

    /** The whitelist loop: copies the allowed fields the body owns. */
    method CopyAllowed(body: map<string, JsValue>) returns (d: map<string, JsValue>)
      ensures d == Filtered(body)
    {
      d := map[];
      for i := 0 to |AllowedFields|
        invariant d == map f | f in body && f in AllowedFields[..i] :: body[f]
      {
        var f := AllowedFields[i];
        assert forall g :: g in AllowedFields[..i + 1] <==> g in AllowedFields[..i] || g == f by {
          assert AllowedFields[..i + 1] == AllowedFields[..i] + [f];
        }
        if f in body {
          d := d[f := body[f]];
        }
      }
      assert AllowedFields[..|AllowedFields|] == AllowedFields;
    }

    /** POST: an invalid enum value is refused with its message before any
        write (checked in the order language, theme, speed; falsy values
        skip the checks); a null language breaks the column's NOT NULL
        constraint; otherwise the row is created from the defaults or
        updated, and only the whitelisted fields the body carries change. */
    method PostSettings(body: map<string, JsValue>) returns (r: SettingsResponse)
      modifies this
      ensures var d := Filtered(body);
              && (BadLanguage(d) ==> r == Invalid(LanguageError))
              && (!BadLanguage(d) && BadTheme(d) ==> r == Invalid(ThemeError))
              && (!BadLanguage(d) && !BadTheme(d) && BadSpeed(d) ==> r == Invalid(SpeedError))
              && (!BadLanguage(d) && !BadTheme(d) && !BadSpeed(d) && Get(d, "language") == Null ==> r == ServerError)
      ensures r.Invalid? || r.ServerError? ==> rows == old(rows)
      ensures r.Saved? ==> rows == old(rows)[SettingsUser := old(Current()) + Filtered(body)] && r.settings == Current()
      ensures r.Saved? <==> !BadLanguage(Filtered(body)) && !BadTheme(Filtered(body)) && !BadSpeed(Filtered(body))
                            && Get(Filtered(body), "language") != Null
    {
      var d := CopyAllowed(body);
      if BadLanguage(d) {
        return Invalid(LanguageError);
      }
      if BadTheme(d) {
        return Invalid(ThemeError);
      }
      if BadSpeed(d) {
        return Invalid(SpeedError);
      }
      if Get(d, "language") == Null {
        return ServerError;
      }
      if SettingsUser !in rows {
        rows := rows[SettingsUser := DefaultSettings + d];
      } else {
        rows := rows[SettingsUser := rows[SettingsUser] + d];
      }
      r := Saved(rows[SettingsUser]);
    }
  }

  /** The defaults hold exactly the five whitelisted fields and pass every
      POST check, so posting them back is accepted and changes nothing. */
  lemma DefaultsPassChecks()
    ensures Filtered(DefaultSettings) == DefaultSettings
    ensures !BadLanguage(DefaultSettings) && !BadTheme(DefaultSettings) && !BadSpeed(DefaultSettings)
    ensures Get(DefaultSettings, "language") != Null
  {
  }

  /** After a POST every whitelisted field the body carried reads back as
      sent, every other field as before, and nothing else appears. */
  lemma PostReadsBack(before: map<string, JsValue>, body: map<string, JsValue>, f: string)
    ensures f in AllowedFields && f in body ==> (before + Filtered(body))[f] == body[f]
    ensures (f !in AllowedFields || f !in body) ==>
              (f in before + Filtered(body) <==> f in before) &&
              (f in before ==> (before + Filtered(body))[f] == before[f])
  {
  }

  /** Posting the same body twice leaves the row as posting it once. */
  lemma PostIdempotent(before: map<string, JsValue>, body: map<string, JsValue>)
    ensures (before + Filtered(body)) + Filtered(body) == before + Filtered(body)
  {
  }

  /** Fields outside the whitelist never reach the row, whatever they hold. */
  lemma UnlistedFieldIgnored(body: map<string, JsValue>, v: JsValue)
    requires "user_id" !in body
    ensures Filtered(body["user_id" := v]) == Filtered(body)
  {
  }
}
