/**
  TLS parameters of a bridge mount: how the client builds them from its command line, and the three places in the
  operator that resolve them for a port and must name the same files.
 */
module TlsParameters {
  import opened Wrappers
  import opened Text

  /** A file path given by the user, or a reference to a key of a Kubernetes Secret. */
  datatype Param = Plain(text: string) | FromSecret(namespace: string, name: string, key: string)

  datatype Field = Certificate | Key | Sni

  /** A `tls` dictionary. */
  datatype Block = Block(certificate: Option<Param>, key: Option<Param>, sni: Option<Param>) {
    function Get(f: Field): Option<Param> {
      match f
      case Certificate => certificate
      case Key => key
      case Sni => sni
    }

    function Set(f: Field, p: Param): Block {
      match f
      case Certificate => this.(certificate := Some(p))
      case Key => this.(key := Some(p))
      case Sni => this.(sni := Some(p))
    }

    predicate Complete() { certificate.Some? && key.Some? }

    predicate HalfSet() { certificate.Some? != key.Some? }
  }

  /** `providerParameter`: an entry under the text of a port may lack its `tls`. */
  datatype Params = Params(ports: map<nat, Option<Block>>, global: Option<Block>)

  const NO_BLOCK := Block(None, None, None)

  // ----- The operator's resolvers -----

  datatype Scope = OnPort(port: nat) | AllPorts

  /** The block under the port; a missing or zero `rport` has none. */
  function PortBlock(params: Params, rport: Option<nat>): Block {
    if rport.Some? && rport.value != 0 && rport.value in params.ports && params.ports[rport.value].Some?
    then params.ports[rport.value].value else NO_BLOCK
  }

  function GlobalBlock(params: Params): Block {
    match params.global
    case Some(b) => b
    case None => NO_BLOCK
  }

  function BlockOf(params: Params, scope: Scope): Block {
    match scope
    case OnPort(port) => PortBlock(params, Some(port))
    case AllPorts => GlobalBlock(params)
  }

  /** The case distinction that `_tls_param_from_key_secret`, `update_tls_file` and `inject_tls_file` share. */
  function ScopeOf(which: Field, params: Params, rport: Option<nat>): Option<Scope> {
    if PortBlock(params, rport).Get(which).Some? then Some(OnPort(rport.value))
    else if GlobalBlock(params).Get(which).Some? then Some(AllPorts)
    else None
  }

  /** `_tls_param_from_key_secret` */
  predicate ParamFromSecret(which: Field, params: Params, rport: Option<nat>) {
    match ScopeOf(which, params, rport)
    case Some(scope) => BlockOf(params, scope).Get(which).value.FromSecret?
    case None => false
  }

  function FileName(which: Field, scope: Scope): string {
    (match which
     case Certificate => "/tmp/from_k8s_secret_cert_"
     case _ => "/tmp/from_k8s_secret_key_")
    + (match scope
       case OnPort(port) => Str(port)
       case AllPorts => "all")
    + ".pem"
  }

  /** The file that is injected into the Pod for this port, as `inject_tls_file` is called only for Secrets. */
  function Injected(which: Field, params: Params, rport: Option<nat>): Option<string> {
    if ParamFromSecret(which, params, rport) then Some(FileName(which, ScopeOf(which, params, rport).value)) else None
  }

  /** The case distinction of `_get_tls_from_provider_parameters`. */
  function ConfigScope(params: Params, rport: Option<nat>): Option<Scope> {
    if PortBlock(params, rport).Complete() then Some(OnPort(rport.value))
    else if GlobalBlock(params).Complete() then Some(AllPorts)
    else None
  }

  /** The path in the Carrier2 configuration, `None` without TLS. */
  function ConfigPath(which: Field, params: Params, rport: Option<nat>): Option<string>
    requires which != Sni
  {
    match ConfigScope(params, rport)
    case None => None
    case Some(scope) =>
      match BlockOf(params, scope).Get(which).value
      case Plain(text) => Some(text)
      case FromSecret(_, _, _) => Some(FileName(which, scope))
  }

  /** The path in the configuration where it stands for a Secret. */
  function ConfiguredSecret(which: Field, params: Params, rport: Option<nat>): Option<string>
    requires which != Sni
  {
    match ConfigScope(params, rport)
    case None => None
    case Some(scope) =>
      if BlockOf(params, scope).Get(which).value.FromSecret? then ConfigPath(which, params, rport) else None
  }

  predicate SecretAt(which: Field, params: Params, scope: Option<Scope>) {
    scope.Some? && BlockOf(params, scope.value).Get(which).Some? && BlockOf(params, scope.value).Get(which).value.FromSecret?
  }

  /** What the configuration of a port names: the given path, or the file for a Secret of the port or of all ports. */
  lemma ConfigPathIs(params: Params, rport: Option<nat>, certificate: Param, key: Param, sni: Option<Param>)
    ensures
      (rport.Some? && rport.value > 0 && rport.value in params.ports
       && params.ports[rport.value] == Some(Block(Some(certificate), Some(key), sni))) ==>
      && ConfigPath(Certificate, params, rport) ==
         Some(if certificate.Plain? then certificate.text else "/tmp/from_k8s_secret_cert_" + Str(rport.value) + ".pem")
      && ConfigPath(Key, params, rport) ==
         Some(if key.Plain? then key.text else "/tmp/from_k8s_secret_key_" + Str(rport.value) + ".pem")
    ensures
      ((rport.None? || rport == Some(0) || rport.value !in params.ports)
       && params.global == Some(Block(Some(certificate), Some(key), sni))) ==>
      && ConfigPath(Certificate, params, rport) ==
         Some(if certificate.Plain? then certificate.text else "/tmp/from_k8s_secret_cert_" + "all" + ".pem")
      && ConfigPath(Key, params, rport) ==
         Some(if key.Plain? then key.text else "/tmp/from_k8s_secret_key_" + "all" + ".pem")
  {
  }

  /** The file that is written for a Secret: the port's own block goes first, field by field. */
  lemma InjectedIs(params: Params, port: nat, b: Block)
    requires port > 0 && params.ports == map[port := Some(b)]
    ensures b.certificate.Some? ==>
      Injected(Certificate, params, Some(port)) ==
      if b.certificate.value.FromSecret? then Some("/tmp/from_k8s_secret_cert_" + Str(port) + ".pem") else None
    ensures b.key.Some? ==>
      Injected(Key, params, Some(port)) ==
      if b.key.value.FromSecret? then Some("/tmp/from_k8s_secret_key_" + Str(port) + ".pem") else None
    ensures forall rport | rport in {None, Some(0), Some(port + 1)} || (rport == Some(port) && b.certificate.None?) ::
      Injected(Certificate, params, rport) ==
      if params.global.Some? && params.global.value.certificate.Some? && params.global.value.certificate.value.FromSecret?
      then Some("/tmp/from_k8s_secret_cert_" + "all" + ".pem") else None
  {
  }

  lemma FileNamesDiffer(which: Field, scope: Scope, which': Field, scope': Scope)
    requires which != Sni && which' != Sni && FileName(which, scope) == FileName(which', scope')
    ensures which == which' && scope == scope'
  {
    var a, b := FileName(which, scope), FileName(which', scope');
    assert a[21] == (if which == Certificate then 'c' else 'k');
    assert b[21] == (if which' == Certificate then 'c' else 'k');
    var n := if which == Certificate then 26 else 25;
    assert a[n..|a| - 4] == ScopeText(scope);
    assert b[n..|b| - 4] == ScopeText(scope');
    ScopeTextsDiffer(scope, scope');
  }

  function ScopeText(scope: Scope): string {
    match scope
    case OnPort(port) => Str(port)
    case AllPorts => "all"
  }

  lemma ScopeTextsDiffer(scope: Scope, scope': Scope)
    requires ScopeText(scope) == ScopeText(scope')
    ensures scope == scope'
  {
    if scope.OnPort? && scope'.OnPort? {
      StrInjective(scope.port, scope'.port);
    } else if scope.OnPort? {
      StrIsNotAll(scope.port);
    } else if scope'.OnPort? {
      StrIsNotAll(scope'.port);
    }
  }

  lemma StrIsNotAll(n: nat)
    ensures Str(n) != "all"
  {
    assert IsDigit(Str(n)[0]);
  }

  /**
    Where the injector writes exactly what the configuration refers to: both look into the same block, or neither
    finds a Secret in its own.
   */
  lemma AgreementIff(which: Field, params: Params, rport: Option<nat>)
    requires which != Sni
    ensures Injected(which, params, rport) == ConfiguredSecret(which, params, rport) <==>
      || ScopeOf(which, params, rport) == ConfigScope(params, rport)
      || (!SecretAt(which, params, ScopeOf(which, params, rport)) && !SecretAt(which, params, ConfigScope(params, rport)))
  {
    var s, c := ScopeOf(which, params, rport), ConfigScope(params, rport);
    if s.Some? && c.Some? && s != c && SecretAt(which, params, s) && SecretAt(which, params, c) {
      if FileName(which, s.value) == FileName(which, c.value) {
        FileNamesDiffer(which, s.value, which, c.value);
      }
    }
  }

  function Other(which: Field): Field { if which == Certificate then Key else Certificate }

  predicate IsSecret(b: Block, which: Field) { b.Get(which).Some? && b.Get(which).value.FromSecret? }

  /**
    The parameters lead the injector and the configuration apart: the port's block has one of certificate and key
    only, and a Secret is at stake there or in a complete block for all ports; or the port's block has it not, and the
    block for all ports has it alone, as a Secret.
   */
  predicate LeadsApart(which: Field, params: Params, rport: Option<nat>) {
    var p, g := PortBlock(params, rport), GlobalBlock(params);
    || (p.Get(which).Some? && p.Get(Other(which)).None? && (IsSecret(p, which) || (g.Complete() && IsSecret(g, which))))
    || (p.Get(which).None? && g.Get(Other(which)).None? && IsSecret(g, which))
  }

  /** Exactly when the configuration names the file that is written, in terms of the given parameters. */
  lemma ResolversAgreeIff(which: Field, params: Params, rport: Option<nat>)
    requires which != Sni
    ensures Injected(which, params, rport) == ConfiguredSecret(which, params, rport) <==> !LeadsApart(which, params, rport)
  {
    AgreementIff(which, params, rport);
  }

  /** A block with a certificate but no key, before a global one with both: the configuration names another file. */
  lemma SplitBlockDisagrees(params: Params, port: nat)
    requires port > 0 && PortBlock(params, Some(port)).HalfSet() && GlobalBlock(params).Complete()
    requires PortBlock(params, Some(port)).certificate.Some? && PortBlock(params, Some(port)).certificate.value.FromSecret?
    ensures Injected(Certificate, params, Some(port)) != ConfiguredSecret(Certificate, params, Some(port))
  {
    AgreementIff(Certificate, params, Some(port));
  }

  /** What the client's validator produces: complete blocks, either for single ports or for all. */
  predicate ClientProduced(params: Params) {
    || (params.global.None? && forall p :: p in params.ports ==> params.ports[p].Some? && params.ports[p].value.Complete())
    || (params.ports == map[] && params.global.Some? && params.global.value.Complete())
  }

  /** Hence for every port the secret-backed paths of the configuration are exactly the ones the injector writes. */
  lemma ClientParametersAgree(which: Field, params: Params, rport: Option<nat>)
    requires which != Sni && ClientProduced(params)
    ensures Injected(which, params, rport) == ConfiguredSecret(which, params, rport)
    ensures ConfigScope(params, rport).None? ==> Injected(which, params, rport).None?
  {
    AgreementIff(which, params, rport);
  }

  // ----- The client -----

  function Lower(c: char): char { if 'A' <= c <= 'Z' then (c as int + 32) as char else c }

  /** `value.lower().startswith("secret:")` */
  predicate IsSecretNotation(value: string) {
    |value| >= 7 && forall i :: 0 <= i < 7 ==> Lower(value[i]) == "secret:"[i]
  }

  /** `parse_secret_notation` */
  function ParseSecretNotation(value: string): Result<Param> {
    if !IsSecretNotation(value) then Success(Plain(value))
    else
      match CutLast(value[7..], ':')
      case None => Failure("Invalid secret notation")
      case Some((nameNs, key)) =>
        var (namespace, name) :=
          match CutFirst(nameNs, '/')
          case Some(p) => (if p.0 == "" then "default" else p.0, p.1)
          case None => ("default", nameNs);
        if name == "" then Failure("Missing secret name")
        else if key == "" then Failure("Missing key")
        else Success(FromSecret(namespace, name, key))
  }

  /** `secret:`, each letter small or capital. */
  ghost predicate SecretPrefix(s: string) {
    |s| == 7 && forall i :: 0 <= i < 7 ==> s[i] == "secret:"[i] || s[i] == "SECRET:"[i]
  }

  /** Any other text stands for itself. */
  lemma PlainIff(value: string)
    ensures (|value| >= 7 && SecretPrefix(value[..7])) || ParseSecretNotation(value) == Success(Plain(value))
    ensures IsSecretNotation(value) <==> |value| >= 7 && SecretPrefix(value[..7])
  {
    if |value| >= 7 {
      forall i | 0 <= i < 7
        ensures Lower(value[i]) == "secret:"[i] <==> value[..7][i] == "secret:"[i] || value[..7][i] == "SECRET:"[i]
      {
        LowerIff(value[i], i);
      }
    }
  }

  lemma LowerIff(c: char, i: nat)
    requires i < 7
    ensures Lower(c) == "secret:"[i] <==> c == "secret:"[i] || c == "SECRET:"[i]
  {
  }

  /** Every Secret can be written, with its namespace or, in the namespace `default`, without. */
  lemma SecretNotationReads(prefix: string, namespace: string, name: string, key: string)
    requires SecretPrefix(prefix) && '/' !in namespace && ':' !in key && name != "" && key != ""
    ensures ParseSecretNotation(prefix + (namespace + "/" + name) + ":" + key)
      == Success(FromSecret(if namespace == "" then "default" else namespace, name, key))
    ensures '/' !in name ==> ParseSecretNotation(prefix + name + ":" + key) == Success(FromSecret("default", name, key))
  {
    var full := namespace + "/" + name;
    NotationCut(prefix, full, key);
    assert full == namespace + ['/'] + name;
    CutFirstAt(namespace, '/', name);
    if '/' !in name {
      NotationCut(prefix, name, key);
      CutFirstAbsent(name, '/');
    }
  }

  /** Without a colon, a name or a key nothing is read. */
  lemma SecretNotationFails(prefix: string, namespace: string, name: string, rest: string)
    requires SecretPrefix(prefix) && '/' !in namespace
    ensures ':' !in rest ==> ParseSecretNotation(prefix + rest).Failure?
    ensures ParseSecretNotation(prefix + name + ":" + "").Failure?
    ensures ':' !in rest ==> ParseSecretNotation(prefix + (namespace + "/") + ":" + rest).Failure?
  {
    PlainIff(prefix + rest);
    assert (prefix + rest)[..7] == prefix && (prefix + rest)[7..] == rest;
    CutLastAbsent(rest, ':');
    NotationCut(prefix, name, "");
    if ':' !in rest {
      NotationCut(prefix, namespace + "/", rest);
      assert namespace + "/" == namespace + ['/'] + "";
      CutFirstAt(namespace, '/', "");
    }
  }

  lemma NotationCut(prefix: string, nameNs: string, key: string)
    requires SecretPrefix(prefix) && ':' !in key
    ensures IsSecretNotation(prefix + nameNs + ":" + key)
    ensures CutLast((prefix + nameNs + ":" + key)[7..], ':') == Some((nameNs, key))
  {
    var value := prefix + nameNs + ":" + key;
    assert value[..7] == prefix;
    PlainIff(value);
    assert value[7..] == nameNs + [':'] + key;
    CutLastAt(nameNs, ':', key);
  }

  /** `parse_arg`: the value and the port behind the last `@`. */
  function ParseArg(arg: string): Result<(Param, Option<nat>)> {
    match CutLast(arg, '@')
    case None =>
      (match ParseSecretNotation(arg)
       case Success(v) => Success((v, None))
       case Failure(e) => Failure(e))
    case Some((value, portText)) =>
      (match ParseNat(portText)
       case None => Failure("Invalid port specification")
       case Some(port) =>
         match ParseSecretNotation(value)
         case Success(v) => Success((v, Some(port)))
         case Failure(e) => Failure(e))
  }

  /** The port behind the last `@` is read, and what is before it as the value; without `@` there is no port. */
  lemma ParseArgReads(value: string, port: nat, text: string)
    ensures match ParseSecretNotation(value)
      case Success(v) => ParseArg(value + "@" + Str(port)) == Success((v, Some(port)))
      case Failure(_) => ParseArg(value + "@" + Str(port)).Failure?
    ensures '@' !in text && ParseNat(text).None? ==> ParseArg(value + "@" + text).Failure?
    ensures '@' !in value ==> match ParseSecretNotation(value)
      case Success(v) => ParseArg(value) == Success((v, None))
      case Failure(_) => ParseArg(value).Failure?
  {
    assert '@' !in Str(port);
    CutLastAt(value, '@', Str(port));
    assert value + "@" + Str(port) == value + ['@'] + Str(port);
    ParseStr(port);
    CutLastAbsent(value, '@');
    if '@' !in text {
      CutLastAt(value, '@', text);
      assert value + "@" + text == value + ['@'] + text;
    }
  }

  /** An argument that parses without a port is a value. */
  lemma NoPort(arg: string)
    requires ParseArg(arg).Success? && ParseArg(arg).value.1.None?
    ensures ParseSecretNotation(arg) == Success(ParseArg(arg).value.0)
  {
  }

  predicate AllParse(args: seq<string>) { forall i :: 0 <= i < |args| ==> ParseArg(args[i]).Success? }

  /** The last value among the arguments with the suffix `@p`. */
  function LastFor(args: seq<string>, p: nat): Option<Param> {
    if args == [] then None
    else
      match ParseArg(args[|args| - 1])
      case Success((v, Some(q))) => if q == p then Some(v) else LastFor(args[..|args| - 1], p)
      case _ => LastFor(args[..|args| - 1], p)
  }

  type Ports = map<nat, Block>

  /** `f` of every block is the last value for the port, if there is one; the rest is as before. */
  ghost predicate FieldEntered(before: Ports, args: seq<string>, f: Field, after: Ports) {
    && (forall p :: p in after <==> p in before || LastFor(args, p).Some?)
    && (forall p :: p in after ==>
        var old_ := if p in before then before[p] else NO_BLOCK;
        after[p] == if LastFor(args, p).Some? then old_.Set(f, LastFor(args, p).value) else old_)
  }

  lemma EnterStep(before: Ports, done: seq<string>, arg: string, f: Field, entered: Ports)
    requires FieldEntered(before, done, f, entered)
    ensures AllParse(done + [arg]) <==> AllParse(done) && ParseArg(arg).Success?
    ensures match ParseArg(arg)
      case Success((v, Some(port))) =>
        FieldEntered(before, done + [arg], f,
                     entered[port := (if port in entered then entered[port] else NO_BLOCK).Set(f, v)])
      case _ => FieldEntered(before, done + [arg], f, entered)
  {
    var all := done + [arg];
    assert forall i :: 0 <= i < |done| ==> all[i] == done[i];
    assert all[|done|] == arg;
    forall p
      ensures LastFor(all, p) == LastWith(ParseArg(arg), LastFor(done, p), p)
    {
      LastForAppend(done, arg, p);
    }
    forall b: Block, v, w
      ensures b.Set(f, v).Set(f, w) == b.Set(f, w)
    {
    }
  }

  function LastWith(parsed: Result<(Param, Option<nat>)>, last: Option<Param>, p: nat): Option<Param> {
    match parsed
    case Success((v, Some(q))) => if q == p then Some(v) else last
    case _ => last
  }

  lemma LastForAppend(done: seq<string>, arg: string, p: nat)
    ensures LastFor(done + [arg], p) == LastWith(ParseArg(arg), LastFor(done, p), p)
  {
    var all := done + [arg];
    assert all[..|all| - 1] == done;
  }

  /** One of the three loops of `get_ports_from_tls_args`. */
  method EnterField(ports: Ports, args: seq<string>, f: Field) returns (r: Result<Ports>)
    ensures r.Success? <==> AllParse(args)
    ensures r.Success? ==> FieldEntered(ports, args, f, r.value)
  {
    var entered := ports;
    for i := 0 to |args|
      invariant AllParse(args[..i]) && FieldEntered(ports, args[..i], f, entered)
    {
      assert args[..i + 1] == args[..i] + [args[i]];
      EnterStep(ports, args[..i], args[i], f, entered);
      var parsed := ParseArg(args[i]);
      match parsed {
        case Failure(e) => return Failure(e);
        case Success((v, None)) =>
        case Success((v, Some(port))) =>
          var b := if port in entered then entered[port] else NO_BLOCK;
          entered := entered[port := b.Set(f, v)];
      }
    }
    assert args[..|args|] == args;
    return Success(entered);
  }

  /** The last value for each field and port wins; a port is there if some argument names it. */
  ghost predicate PortsAre(certificates: seq<string>, keys: seq<string>, snis: seq<string>, ports: Ports) {
    && (forall p :: p in ports <==> Mentioned(certificates, keys, snis, p))
    && (forall p :: p in ports ==> ports[p] == Block(LastFor(certificates, p), LastFor(keys, p), LastFor(snis, p)))
  }

  predicate AllComplete(ports: Ports) { forall p :: p in ports ==> ports[p].Complete() }

  /** Some argument has the suffix `@p`. */
  ghost predicate Mentioned(certificates: seq<string>, keys: seq<string>, snis: seq<string>, p: nat) {
    LastFor(certificates, p).Some? || LastFor(keys, p).Some? || LastFor(snis, p).Some?
  }

  /** Every mentioned port has a certificate and a key. */
  ghost predicate AllPaired(certificates: seq<string>, keys: seq<string>, snis: seq<string>) {
    forall p :: Mentioned(certificates, keys, snis, p) ==> LastFor(certificates, p).Some? && LastFor(keys, p).Some?
  }

  /** `get_ports_from_tls_args` */
  method GetPortsFromTlsArgs(certificates: seq<string>, keys: seq<string>, snis: seq<string>) returns (r: Result<Ports>)
    ensures r.Success? <==> AllParse(certificates) && AllParse(keys) && AllParse(snis) && AllPaired(certificates, keys, snis)
    ensures r.Success? ==> PortsAre(certificates, keys, snis, r.value) && AllComplete(r.value)
  {
    var withCertificates := EnterField(map[], certificates, Certificate);
    if withCertificates.Failure? {
      return withCertificates;
    }
    var withKeys := EnterField(withCertificates.value, keys, Key);
    if withKeys.Failure? {
      return withKeys;
    }
    var withSnis := EnterField(withKeys.value, snis, Sni);
    if withSnis.Failure? {
      return withSnis;
    }
    var ports := withSnis.value;
    assert PortsAre(certificates, keys, snis, ports);
    var pending := ports.Keys;
    while pending != {}
      invariant pending <= ports.Keys
      invariant forall p :: p in ports && p !in pending ==> ports[p].Complete()
    {
      var p :| p in pending;
      if ports[p].certificate.None? || ports[p].key.None? {
        assert Mentioned(certificates, keys, snis, p);
        return Failure("TLS configuration requires both certificate and key");
      }
      pending := pending - {p};
    }
    return Success(ports);
  }

  /** Where no port is mentioned every argument is a value for all ports. */
  lemma NoneMentioned(certificates: seq<string>, keys: seq<string>, snis: seq<string>)
    requires AllParse(certificates) && AllParse(keys) && AllParse(snis)
    requires !exists p :: Mentioned(certificates, keys, snis, p)
    ensures forall i :: 0 <= i < |certificates| ==> ParseSecretNotation(certificates[i]).Success?
    ensures forall i :: 0 <= i < |keys| ==> ParseSecretNotation(keys[i]).Success?
    ensures forall i :: 0 <= i < |snis| ==> ParseSecretNotation(snis[i]).Success?
  {
    forall p
      ensures LastFor(certificates, p).None? && LastFor(keys, p).None? && LastFor(snis, p).None?
    {
      assert !Mentioned(certificates, keys, snis, p);
    }
    AllForAllPorts(certificates);
    AllForAllPorts(keys);
    AllForAllPorts(snis);
  }

  lemma {:induction false} AllForAllPorts(args: seq<string>)
    requires AllParse(args) && forall p :: LastFor(args, p).None?
    ensures forall i :: 0 <= i < |args| ==> ParseSecretNotation(args[i]).Success?
  {
    if args != [] {
      var last := |args| - 1;
      assert ParseArg(args[last]).Success?;
      if ParseArg(args[last]).value.1.Some? {
        assert LastFor(args, ParseArg(args[last]).value.1.value).Some?;
      }
      forall p
        ensures LastFor(args[..last], p).None?
      {
        assert LastFor(args, p).None?;
      }
      NoPort(args[last]);
      AllForAllPorts(args[..last]);
      assert forall i :: 0 <= i < last ==> args[i] == args[..last][i];
    }
  }

  /** `get_tls_config`: the configuration of single ports, else the one for all ports, else none. */
  method GetTlsConfig(certificates: seq<string>, keys: seq<string>, snis: seq<string>) returns (r: Result<Params>)
    ensures r.Success? <==>
      && AllParse(certificates) && AllParse(keys) && AllParse(snis) && AllPaired(certificates, keys, snis)
      && ((exists p :: Mentioned(certificates, keys, snis, p))
          || (certificates == [] && keys == []) || (|certificates| == |keys| == 1 && |snis| <= 1))
    ensures r.Success? ==> ClientProduced(r.value)
    ensures r.Success? && r.value.global.None? ==> forall p ::
      (p in r.value.ports <==> LastFor(certificates, p).Some?)
      && (p in r.value.ports ==> r.value.ports[p] == Some(Block(LastFor(certificates, p), LastFor(keys, p), LastFor(snis, p))))
    ensures r.Success? ==>
      (r.value.global.Some? <==> certificates != [] && !exists p :: Mentioned(certificates, keys, snis, p))
    ensures r.Success? && r.value.global.Some? ==>
      && |certificates| == 1 && |keys| == 1 && |snis| <= 1
      && r.value.global.value.Complete()
      && ParseSecretNotation(certificates[0]) == Success(r.value.global.value.certificate.value)
      && ParseSecretNotation(keys[0]) == Success(r.value.global.value.key.value)
      && (r.value.global.value.sni.Some? <==> |snis| == 1)
      && (|snis| == 1 ==> ParseSecretNotation(snis[0]) == Success(r.value.global.value.sni.value))
  {
    var result := GetPortsFromTlsArgs(certificates, keys, snis);
    if result.Failure? {
      return Failure(result.error);
    }
    var ports := result.value;
    if ports != map[] {
      assert exists p :: p in ports;
      return Success(Params(map p | p in ports :: Some(ports[p]), None));
    }
    if certificates == [] && keys == [] {
      return Success(Params(map[], None));
    }
    if certificates == [] || keys == [] {
      return Failure("TLS configuration requires both certificate and key to be set.");
    }
    if |certificates| != 1 || |keys| != 1 {
      return Failure("There can be only one global TLS configuration.");
    }
    NoneMentioned(certificates, keys, snis);
    var certificate, key := ParseSecretNotation(certificates[0]), ParseSecretNotation(keys[0]);
    var b := Block(Some(certificate.value), Some(key.value), None);
    if |snis| == 1 {
      var sni := ParseSecretNotation(snis[0]);
      b := b.(sni := Some(sni.value));
    } else if |snis| > 1 {
      return Failure("There can only be one global TLS sni.");
    }
    return Success(Params(map[], Some(b)));
  }
}
