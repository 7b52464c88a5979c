/** The settings of a connection and what Connect makes of them (ircevent/irc.go). */
module Configuration {
  import opened ByteStrings

  const MINUTE := 60_000_000_000 // in nanoseconds, as a time.Duration

  datatype Config = Config(
    server: string,
    nick: string,
    user: string,
    keepAlive: int,
    timeout: int,
    reconnectFreq: int,
    saslLogin: string,
    saslPassword: string,
    useSASL: bool,
    saslMech: string,
    requestCaps: seq<string>,
    maxLineLen: int,
    version: string)

  datatype Error = NoServer | KeepAliveTooShort | UnsupportedMechanism

  const DEFAULT_NICK := "ircevent"
  const VERSION := "ergochat/irc-go"

  function OrText(s: string, default: string): (r: string) {
    if s == "" then default else s
  }

  function OrNumber(n: int, default: int): (r: int) {
    if n == 0 then default else n
  }

  predicate Mechanism(s: string) {
    s == "PLAIN" || s == "EXTERNAL"
  }

  function WithBasics(c: Config): (r: Config) {
    var nick := OrText(c.nick, DEFAULT_NICK);
    c.(nick := nick, user := OrText(c.user, nick),
       keepAlive := OrNumber(c.keepAlive, 4 * MINUTE), timeout := OrNumber(c.timeout, MINUTE))
  }

  function WithSASL(c: Config): (r: Config) {
    var use := c.useSASL || (c.saslLogin != "" && c.saslPassword != "");
    c.(useSASL := use,
       requestCaps := if use && "sasl" !in c.requestCaps then c.requestCaps + ["sasl"] else c.requestCaps,
       saslMech := OrText(c.saslMech, "PLAIN"))
  }

  /** The defaults filled in before the first error, and that error. */
  function Configured(c: Config): (r: (Config, Option<Error>)) {
    if c.server == "" then (c, Some(NoServer))
    else
      var c1 := WithBasics(c);
      if c1.keepAlive < c1.timeout then (c1, Some(KeepAliveTooShort))
      else
        var c2 := WithSASL(c1.(reconnectFreq := OrNumber(c.reconnectFreq, 2 * MINUTE)));
        if !Mechanism(c2.saslMech) then (c2, Some(UnsupportedMechanism))
        else (c2.(maxLineLen := OrNumber(c2.maxLineLen, 512), version := OrText(c2.version, VERSION)), None)
  }

  /** The settings for SASL. */
  method FillSASL(given: Config) returns (c: Config)
    ensures c == WithSASL(given)
  {
    c := given;
    if c.saslLogin != "" && c.saslPassword != "" {
      c := c.(useSASL := true);
    }
    if c.useSASL && "sasl" !in c.requestCaps {
      c := c.(requestCaps := c.requestCaps + ["sasl"]);
    }
    if c.saslMech == "" {
      c := c.(saslMech := "PLAIN");
    }
  }

  method Configure(given: Config) returns (c: Config, err: Option<Error>)
    ensures (c, err) == Configured(given)
  {
    hide WithSASL;
    c := given;
    if c.server == "" {
      return c, Some(NoServer);
    }
    if |c.nick| == 0 {
      c := c.(nick := DEFAULT_NICK);
    }
    if c.user == "" {
      c := c.(user := c.nick);
    }
    if c.keepAlive == 0 {
      c := c.(keepAlive := 4 * MINUTE);
    }
    if c.timeout == 0 {
      c := c.(timeout := MINUTE);
    }
    assert c == WithBasics(given);
    if c.keepAlive < c.timeout {
      return c, Some(KeepAliveTooShort);
    }
    if c.reconnectFreq == 0 {
      c := c.(reconnectFreq := 2 * MINUTE);
    }
    c := FillSASL(c);
    if !Mechanism(c.saslMech) {
      return c, Some(UnsupportedMechanism);
    }
    if c.maxLineLen == 0 {
      c := c.(maxLineLen := 512);
    }
    if c.version == "" {
      c := c.(version := VERSION);
    }
    return c, None;
  }

  // ----- what it guarantees -----

  /** Nothing is left unset, KeepAlive is at least Timeout, and SASL is requested if it is used. */
  predicate Usable(c: Config) {
    && c.server != "" && c.nick != "" && c.user != "" && c.version != "" && Mechanism(c.saslMech)
    && c.timeout != 0 && c.timeout <= c.keepAlive && c.keepAlive != 0 && c.reconnectFreq != 0 && c.maxLineLen != 0
    && (c.saslLogin != "" && c.saslPassword != "" ==> c.useSASL)
    && (c.useSASL ==> "sasl" in c.requestCaps)
  }

  /** Connect accepts exactly the settings that can be completed, and completes them; it only
      adds to what was requested. */
  lemma {:induction false} AcceptedIff(c: Config)
    ensures Configured(c).1.None? <==>
              && c.server != ""
              && OrNumber(c.timeout, MINUTE) <= OrNumber(c.keepAlive, 4 * MINUTE)
              && (c.saslMech == "" || Mechanism(c.saslMech))
    ensures Configured(c).1.None? ==> Usable(Configured(c).0)
    ensures c.requestCaps <= Configured(c).0.requestCaps
  {
  }

  lemma {:induction false} SASLSettled(c: Config)
    ensures WithSASL(WithSASL(c)) == WithSASL(c)
  {
  }

  /** Reconnecting with the same settings changes nothing more and gives the same verdict. */
  lemma {:induction false} ConfigureSettles(c: Config)
    ensures Configured(Configured(c).0) == Configured(c)
  {
    if c.server != "" {
      SASLSettled(WithBasics(c).(reconnectFreq := OrNumber(c.reconnectFreq, 2 * MINUTE)));
    }
  }

  /** The number of ticks between two pings, which processTick divides by, is never zero. */
  lemma {:induction false} PingModulusPositive(c: Config)
    requires Usable(c) && c.timeout > 0
    ensures c.keepAlive / c.timeout >= 1
  {
    var q := c.keepAlive / c.timeout;
    assert c.keepAlive == c.timeout * q + c.keepAlive % c.timeout;
  }

  // ----- what is kept and what is filled in -----

  /** Accepted settings: what was given is kept, and what was not is the documented default. */
  lemma {:induction false} SettingsMean(c: Config)
    requires Configured(c).1.None?
    ensures var r := Configured(c).0;
            && r.server == c.server && r.saslLogin == c.saslLogin && r.saslPassword == c.saslPassword
            && r.nick == (if c.nick == "" then "ircevent" else c.nick)
            && r.user == (if c.user == "" then r.nick else c.user)
            && r.keepAlive == (if c.keepAlive == 0 then 240_000_000_000 else c.keepAlive)
            && r.timeout == (if c.timeout == 0 then 60_000_000_000 else c.timeout)
            && r.reconnectFreq == (if c.reconnectFreq == 0 then 120_000_000_000 else c.reconnectFreq)
            && (r.useSASL <==> c.useSASL || (c.saslLogin != "" && c.saslPassword != ""))
            && r.saslMech == (if c.saslMech == "" then "PLAIN" else c.saslMech)
            && r.requestCaps == (if r.useSASL && "sasl" !in c.requestCaps then c.requestCaps + ["sasl"] else c.requestCaps)
            && r.maxLineLen == (if c.maxLineLen == 0 then 512 else c.maxLineLen)
            && r.version == (if c.version == "" then "ergochat/irc-go" else c.version)
  {
  }

  /** The errors, in the order in which they are found. */
  lemma {:induction false} ErrorsIff(c: Config)
    ensures Configured(c).1 == Some(NoServer) <==> c.server == ""
    ensures Configured(c).1 == Some(KeepAliveTooShort) <==>
              && c.server != ""
              && (if c.keepAlive == 0 then 240_000_000_000 else c.keepAlive) <
                 (if c.timeout == 0 then 60_000_000_000 else c.timeout)
    ensures Configured(c).1 == Some(UnsupportedMechanism) <==>
              && c.server != "" && Configured(c).1 != Some(KeepAliveTooShort)
              && c.saslMech != "" && c.saslMech != "PLAIN" && c.saslMech != "EXTERNAL"
  {
  }
}
