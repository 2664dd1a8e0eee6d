/** The SMTP settings: five fixed keys under category "smtp" in the
    (category, key) -> value settings table, written with upsert semantics. */
module SmtpSettings {

  type SettingsTable = map<(string, string), string>

  const SmtpKeys: seq<string> := ["host", "port", "user", "pass", "sender"]

  function DigitChar(d: nat): (c: char)
    requires d < 10
    ensures '0' <= c <= '9' && c as int - '0' as int == d
  {
    ('0' as int + d) as char
  }

  predicate IsDigits(s: string) {
    forall k :: 0 <= k < |s| ==> '0' <= s[k] <= '9'
  }

  /** Decimal digits of a natural number, without leading zeros. */
  function NatToDecimal(n: nat): (s: string)
    ensures |s| > 0 && IsDigits(s)
    ensures s[0] == '0' ==> n == 0
  {
    if n < 10 then [DigitChar(n)] else NatToDecimal(n / 10) + [DigitChar(n % 10)]
  }

  /** `str(port)` for an integer. */
  function IntToDecimal(n: int): (s: string)
    ensures |s| > 0
    ensures s[0] == '-' <==> n < 0
  {
    if n < 0 then "-" + NatToDecimal(-n) else NatToDecimal(n)
  }

  function ParseNat(s: string): nat
    requires IsDigits(s)
  {
    if |s| == 0 then 0 else ParseNat(s[..|s| - 1]) * 10 + (s[|s| - 1] as int - '0' as int)
  }

  function ParseInt(s: string): int {
    if |s| > 0 && s[0] == '-' && IsDigits(s[1..]) then 0 - ParseNat(s[1..])
    else if IsDigits(s) then ParseNat(s)
    else 0
  }

  lemma {:induction false} NatDecimalRoundTrip(n: nat)
    ensures ParseNat(NatToDecimal(n)) == n
  {
    if n >= 10 {
      var s := NatToDecimal(n);
      assert s[..|s| - 1] == NatToDecimal(n / 10);
      NatDecimalRoundTrip(n / 10);
    }
  }

  /** The stored port text reads back as the port number. */
  lemma IntDecimalRoundTrip(n: int)
    ensures ParseInt(IntToDecimal(n)) == n
  {
    if n < 0 {
      var s := IntToDecimal(n);
      assert s[1..] == NatToDecimal(-n);
      NatDecimalRoundTrip(-n);
    } else {
      NatDecimalRoundTrip(n);
      assert NatToDecimal(n)[0] != '-';
    }
  }

  /** The `pairs` dict of save_smtp_settings, in its iteration order. */
  function SmtpPairs(host: string, port: int, user: string, password: string, sender: string)
    : (pairs: seq<(string, string)>)
    ensures |pairs| == |SmtpKeys|
    ensures forall i :: 0 <= i < |pairs| ==> pairs[i].0 == SmtpKeys[i]
  {
    [("host", host), ("port", IntToDecimal(port)), ("user", user), ("pass", password), ("sender", sender)]
  }

  /** The entries a sequence of upserts under "smtp" leaves, a later pair
      overwriting an earlier one with the same key. */
  function Entries(pairs: seq<(string, string)>): (m: SettingsTable)
    ensures forall p :: p in m ==> p.0 == "smtp"
  {
    if |pairs| == 0 then map[]
    else
      var n := |pairs| - 1;
      Entries(pairs[..n])[("smtp", pairs[n].0) := pairs[n].1]
  }

  /** One more upsert on top of a batch is the batch extended by that pair. */
  lemma EntriesSnoc(settings: SettingsTable, pairs: seq<(string, string)>, kv: (string, string))
    ensures settings + Entries(pairs + [kv]) == (settings + Entries(pairs))[("smtp", kv.0) := kv.1]
  {
    assert (pairs + [kv])[..|pairs|] == pairs;
  }

  /** The five rows save_smtp_settings writes. */
  function SmtpEntries(host: string, port: int, user: string, password: string, sender: string)
    : (m: SettingsTable)
    ensures forall p :: p in m <==> p.0 == "smtp" && p.1 in SmtpKeys
    ensures m[("smtp", "host")] == host && m[("smtp", "port")] == IntToDecimal(port)
    ensures m[("smtp", "user")] == user && m[("smtp", "pass")] == password
    ensures m[("smtp", "sender")] == sender
  {
    map[("smtp", "host") := host, ("smtp", "port") := IntToDecimal(port), ("smtp", "user") := user,
        ("smtp", "pass") := password, ("smtp", "sender") := sender]
  }

  lemma SmtpPairsEntries(host: string, port: int, user: string, password: string, sender: string)
    ensures Entries(SmtpPairs(host, port, user, password, sender))
         == SmtpEntries(host, port, user, password, sender)
  {
    var p := SmtpPairs(host, port, user, password, sender);
    assert p[..4] == p[..|p| - 1];
    assert p[..4][..3] == p[..3];
    assert p[..3][..2] == p[..2];
    assert p[..2][..1] == p[..1];
    assert p[..1][..0] == [];
    var e1 := map[("smtp", "host") := host];
    assert Entries(p[..1]) == e1;
    var e2 := e1[("smtp", "port") := IntToDecimal(port)];
    assert Entries(p[..2]) == e2;
    var e3 := e2[("smtp", "user") := user];
    assert Entries(p[..3]) == e3;
    var e4 := e3[("smtp", "pass") := password];
    assert Entries(p[..4]) == e4;
    var e5 := e4[("smtp", "sender") := sender];
    assert Entries(p) == e5;
    assert e5 == SmtpEntries(host, port, user, password, sender);
  }

  /** save_smtp_settings: upsert each of the five pairs in turn. */
  method SaveSmtpSettings(settings: SettingsTable, host: string, port: int, user: string,
                          password: string, sender: string)
    returns (updated: SettingsTable)
    ensures updated == settings + SmtpEntries(host, port, user, password, sender)
  {
    var pairs := SmtpPairs(host, port, user, password, sender);
    updated := settings;
    for i := 0 to |pairs|
      invariant updated == settings + Entries(pairs[..i])
    {
      var (k, v) := pairs[i];
      assert pairs[..i + 1] == pairs[..i] + [pairs[i]];
      EntriesSnoc(settings, pairs[..i], pairs[i]);
      updated := updated[("smtp", k) := v];
    }
    assert pairs[..|pairs|] == pairs;
    SmtpPairsEntries(host, port, user, password, sender);
  }

  /** get_smtp_settings: key -> value for every row under "smtp". */
  function GetSmtpSettings(settings: SettingsTable): (out: map<string, string>)
    ensures forall k :: k in out <==> ("smtp", k) in settings
    ensures forall k :: k in out ==> out[k] == settings[("smtp", k)]
  {
    map k | k in (set p | p in settings && p.0 == "smtp" :: p.1) :: settings[("smtp", k)]
  }

  /** Saving sets exactly the five keys under "smtp", to the values given,
      and leaves every other (category, key) entry as it was. */
  lemma SaveSetsOnlySmtpKeys(settings: SettingsTable, host: string, port: int, user: string,
                             password: string, sender: string, p: (string, string))
    ensures var updated := settings + SmtpEntries(host, port, user, password, sender);
            && updated.Keys == settings.Keys + (set k | k in SmtpKeys :: ("smtp", k))
            && (p.0 != "smtp" || p.1 !in SmtpKeys ==>
                  (p in updated <==> p in settings) && (p in settings ==> updated[p] == settings[p]))
  {
  }

  /** Saving the same form twice leaves the table as saving it once. */
  lemma SaveIdempotent(settings: SettingsTable, host: string, port: int, user: string,
                       password: string, sender: string)
    ensures var e := SmtpEntries(host, port, user, password, sender);
            settings + e + e == settings + e
  {
  }

  /** Reading the "smtp" category distributes over a union of tables. */
  lemma GetOfUnion(a: SettingsTable, b: SettingsTable)
    ensures GetSmtpSettings(a + b) == GetSmtpSettings(a) + GetSmtpSettings(b)
  {
    var l, r := GetSmtpSettings(a + b), GetSmtpSettings(a) + GetSmtpSettings(b);
    assert l.Keys == r.Keys;
    forall k | k in l ensures l[k] == r[k] {
      if ("smtp", k) in b {
        assert k in GetSmtpSettings(b);
      }
    }
  }

  lemma GetOfSmtpEntries(host: string, port: int, user: string, password: string, sender: string)
    ensures GetSmtpSettings(SmtpEntries(host, port, user, password, sender))
         == map["host" := host, "port" := IntToDecimal(port), "user" := user,
                "pass" := password, "sender" := sender]
  {
    var e := SmtpEntries(host, port, user, password, sender);
    var form := map["host" := host, "port" := IntToDecimal(port), "user" := user,
                    "pass" := password, "sender" := sender];
    var got := GetSmtpSettings(e);
    forall k ensures k in got <==> k in form {
      assert k in got <==> ("smtp", k) in e;
    }
    assert got.Keys == form.Keys;
  }

  /** What is saved is what the settings page then reads back, the port as
      its decimal text. */
  lemma SaveThenGet(settings: SettingsTable, host: string, port: int, user: string,
                    password: string, sender: string)
    ensures var got := GetSmtpSettings(settings + SmtpEntries(host, port, user, password, sender));
            && got == GetSmtpSettings(settings)
                      + map["host" := host, "port" := IntToDecimal(port), "user" := user,
                            "pass" := password, "sender" := sender]
            && ParseInt(got["port"]) == port
  {
    GetOfUnion(settings, SmtpEntries(host, port, user, password, sender));
    GetOfSmtpEntries(host, port, user, password, sender);
    IntDecimalRoundTrip(port);
  }
}
