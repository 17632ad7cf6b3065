/** The Metadata Resolver: which names a container publishes, derived from
    the result of inspecting it (spy.go, `getContainerNames`). */
module Names {
  import opened Wrappers
  import opened Strings
  import opened Seqs

  /** A fully-qualified name and the address it resolves to. */
  datatype PublishedName = PublishedName(name: string, ip: string)

  /** The part of a container inspection the resolver reads: the configured
      hostname and domain name, the primary address and the `KEY=VALUE`
      environment lines. */
  datatype Metadata = Metadata(hostname: string, domainname: string, ipAddress: string, env: seq<string>)

  /** What `getContainerNames` returns: the names, and whether the
      inspection failed (in which case the names are empty). */
  datatype NameList = NameList(names: seq<PublishedName>, failed: bool)

  /** Environment keys starting with this publish an extra name. */
  const OverridePrefix: string := "DNS_PUBLISH_NAME_"

  /** The name every inspected container publishes: `hostname.domainname.`
      at its primary address. */
  function ImplicitName(md: Metadata): (n: PublishedName)
  {
    PublishedName(md.hostname + "." + md.domainname + ".", md.ipAddress)
  }

  /** The extra name one environment line publishes, if any: split on the
      first `=`, test the key for the prefix, split the value on the first `:`. */
  function EnvName(line: string): (found: Option<PublishedName>)
  {
    var env := SplitOnce(line, '=');
    if HasPrefix(env[0], OverridePrefix) && |env| > 1 then
      var info := SplitOnce(env[1], ':');
      if |info| > 1 then Some(PublishedName(info[0] + ".", info[1])) else None
    else None
  }

  /** The extra names of an environment, one per qualifying line, in order. */
  function EnvNames(env: seq<string>): (names: seq<PublishedName>)
  {
    Collect(env, EnvName)
  }

  /** `getContainerNames` on the result of the inspect call. */
  function ContainerNames(inspected: Option<Metadata>): (found: NameList)
  {
    match inspected
    case None => NameList([], true)
    case Some(md) => NameList([ImplicitName(md)] + EnvNames(md.env), false)
  }

  /** `line` reads `key=name:ip`, where `key` is the text before the line's
      first `=` and starts with the prefix, and `name` is the text before the
      value's first `:`. */
  predicate IsOverride(line: string, key: string, name: string, ip: string)
  {
    && line == key + "=" + (name + ":" + ip)
    && '=' !in key
    && ':' !in name
    && HasPrefix(key, OverridePrefix)
  }

  /** Every override line publishes `name.` at `ip`. */
  lemma EnvNameOfOverride(line: string, key: string, name: string, ip: string)
    requires IsOverride(line, key, name, ip)
    ensures EnvName(line) == Some(PublishedName(name + ".", ip))
  {
    SplitOnceJoin(key, '=', name + [':'] + ip);
    SplitOnceJoin(name, ':', ip);
  }

  /** Every line that publishes something is an override line. */
  lemma EnvNameIsOverride(line: string)
    requires EnvName(line).Some?
    ensures exists key, name, ip :: IsOverride(line, key, name, ip) && EnvName(line) == Some(PublishedName(name + ".", ip))
  {
    var env := SplitOnce(line, '=');
    assert |env| == 2 && HasPrefix(env[0], OverridePrefix);
    var info := SplitOnce(env[1], ':');
    assert |info| == 2;
    assert EnvName(line) == Some(PublishedName(info[0] + ".", info[1]));
    assert line == env[0] + ['='] + env[1];
    assert env[1] == info[0] + [':'] + info[1];
    assert IsOverride(line, env[0], info[0], info[1]);
  }

  /** A line publishes a name exactly when it is an override line; every
      other line (no `=`, another key, no `:` in the value) contributes nothing. */
  lemma EnvNameIff(line: string)
    ensures EnvName(line).Some? <==> exists key, name, ip :: IsOverride(line, key, name, ip)
  {
    forall key, name, ip | IsOverride(line, key, name, ip)
      ensures EnvName(line).Some?
    {
      EnvNameOfOverride(line, key, name, ip);
    }
    if EnvName(line).Some? {
      EnvNameIsOverride(line);
    }
  }

  /** The name ends with `.`. */
  predicate EndsWithDot(s: string)
  {
    |s| > 0 && s[|s| - 1] == '.'
  }

  /** Every published name is fully qualified: it ends with a dot. */
  lemma ContainerNamesQualified(inspected: Option<Metadata>)
    ensures forall p :: p in ContainerNames(inspected).names ==> EndsWithDot(p.name)
  {
    if inspected.Some? {
      var md := inspected.value;
      forall p | p in EnvNames(md.env)
        ensures EndsWithDot(p.name)
      {
        CollectMember(md.env, EnvName, p);
        var i :| 0 <= i < |md.env| && EnvName(md.env[i]) == Some(p);
        EnvNameIsOverride(md.env[i]);
      }
    }
  }

  /** A well-formed override publishes the name before the `:` with a dot added. */
  lemma OverrideExample(key: string, name: string, ip: string)
    requires key == "DNS_PUBLISH_NAME_X" && name == "foo.example.com" && ip == "10.0.0.5"
    ensures EnvName(key + "=" + (name + ":" + ip)) == Some(PublishedName("foo.example.com.", "10.0.0.5"))
  {
    var line := key + "=" + (name + ":" + ip);
    assert IsOverride(line, key, name, ip);
    EnvNameOfOverride(line, key, name, ip);
    assert name + "." == "foo.example.com.";
  }

  /** An override value without `:` publishes nothing. */
  lemma BadValueExample(key: string, value: string)
    requires key == "DNS_PUBLISH_NAME_X" && value == "badvalue"
    ensures EnvName(key + "=" + value) == None
  {
    assert key + "=" + value == key + ['='] + value;
    SplitOnceJoin(key, '=', value);
  }
}
