/**
 * The login command `connect_server` hands to the terminal: an `ssh`
 * invocation for the server's user, host and port, with an option chosen by
 * the server's authentication type.
 */
module Login {
  import opened Wrappers
  import opened Records
  import Decimal

  const InvalidAuth := "Invalid authentication type"
  const PasswordOption := " -o PreferredAuthentications=password"
  const KeyOption := " -i "

  /** Everything before the port digits: `ssh user@host -p `. */
  function Target(s: Server): string {
    "ssh " + s.username + "@" + s.host + " -p "
  }

  /** The command for `s`, or an error when its authentication type is neither "password" nor "key". */
  function LoginCommand(s: Server): (r: Result<string, string>)
    ensures r.Err? <==> s.authType != "password" && s.authType != "key"
    ensures r.Err? ==> r.error == InvalidAuth
    ensures r.Ok? ==> Target(s) + Decimal.Show(s.port) <= r.value
    ensures r.Ok? && s.authType == "password" ==>
      r.value[|Target(s) + Decimal.Show(s.port)|..] == PasswordOption
    ensures r.Ok? && s.authType == "key" ==>
      r.value[|Target(s) + Decimal.Show(s.port)|..] == KeyOption + s.authInfo
  {
    var command := Target(s) + Decimal.Show(s.port);
    if s.authType == "password" then Ok(command + PasswordOption)
    else if s.authType == "key" then Ok(command + KeyOption + s.authInfo)
    else Err(InvalidAuth)
  }

  /** The digits after `-p ` read back as the server's port: the option that follows starts with a space. */
  lemma PortReadBack(s: Server)
    requires LoginCommand(s).Ok?
    ensures Decimal.Parse(Decimal.LeadingDigits(LoginCommand(s).value[|Target(s)|..])) == s.port
  {
    var target, digits := Target(s), Decimal.Show(s.port);
    var command := LoginCommand(s).value;
    var rest := command[|target + digits|..];
    assert rest[0] == ' ';
    assert command == (target + digits) + rest;
    assert command[|target|..] == digits + rest;
    Decimal.LeadingDigitsOf(digits, rest);
    Decimal.ParseShow(s.port);
  }

  /**
   * The command depends only on user, host, port and authentication type, and
   * on the key path for key authentication: ids, names, the group and, for
   * password authentication, the stored secret reference play no part.
   */
  lemma CommandDependsOnlyOnLogin(s: Server, t: Server)
    requires s.username == t.username && s.host == t.host && s.port == t.port
    requires s.authType == t.authType
    requires s.authType == "key" ==> s.authInfo == t.authInfo
    ensures LoginCommand(s) == LoginCommand(t)
  {
  }

  /** Different ports always give different commands. */
  lemma PortDistinguishes(s: Server, t: Server)
    requires LoginCommand(s).Ok? && LoginCommand(t).Ok?
    requires s.username == t.username && s.host == t.host
    requires s.port != t.port
    ensures LoginCommand(s) != LoginCommand(t)
  {
    PortReadBack(s);
    PortReadBack(t);
  }
}
