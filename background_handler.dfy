/** The background handler registry: handlers are made by named factories,
    and a descriptor "name:arg1:arg2" picks the factory by name and hands it
    the remaining parts as arguments. The handler type is a parameter; the
    averaging handlers are one instance of it. */
module Background {
  import opened Wrappers
  import opened Strings

  const DescriptorSep: char := ':'

  /** What building a handler can throw. */
  datatype HandlerError =
    | NoSuchHandler(name: string, available: set<string>) // unknown name, with the registered names
    | MissingArgument                                      // an array index past the end
    | IncorrectArguments(required: nat, found: nat)        // a factory's argument count check
    | BadNumber(text: string)                              // `Long.parseLong` refused the text

  /** A factory: from the descriptor's arguments to a handler or an error.
      (The video file name and parameters the source also passes are not
      used by any factory in this model.) */
  type Factory<H> = seq<string> -> Result<H, HandlerError>

  /** The descriptor split at ':' as `String.split` does (trailing empty
      parts dropped): the name is the first part, the arguments the rest, in
      order. A descriptor with no parts at all (only separators) has no name
      to read. */
  function Parse(descr: string): (r: Result<(string, seq<string>), HandlerError>)
    ensures r.Success? <==> |Split(descr, DescriptorSep)| > 0
    ensures r.Success? ==> [r.value.0] + r.value.1 == Split(descr, DescriptorSep)
    ensures r.Failure? ==> r.error == MissingArgument
  {
    var parts := Split(descr, DescriptorSep);
    if |parts| == 0 then Failure(MissingArgument)
    else Success((parts[0], parts[1..]))
  }

  /** `getHandler` over the registered factories. */
  function GetHandler<H>(factories: map<string, Factory<H>>, descr: string): (r: Result<H, HandlerError>)
    ensures Parse(descr).Success? && Parse(descr).value.0 !in factories ==>
              r == Failure(NoSuchHandler(Parse(descr).value.0, factories.Keys))
    ensures Parse(descr).Success? && Parse(descr).value.0 in factories ==>
              r == factories[Parse(descr).value.0](Parse(descr).value.1)
    ensures Parse(descr).Failure? ==> r == Failure(MissingArgument)
  {
    match Parse(descr)
    case Failure(e) => Failure(e)
    case Success((name, args)) =>
      if name !in factories then Failure(NoSuchHandler(name, factories.Keys))
      else factories[name](args)
  }

  /** Parts joined with ':' come back apart: the first is the name and the
      others, in order, the arguments, provided no part holds a ':' and the
      last is not empty. */
  lemma ParseJoined(parts: seq<string>)
    requires |parts| > 0 && parts[|parts| - 1] != ""
    requires forall k :: 0 <= k < |parts| ==> !Contains(parts[k], DescriptorSep)
    ensures Parse(Join(parts, [DescriptorSep])) == Success((parts[0], parts[1..]))
  {
    var s := Join(parts, [DescriptorSep]);
    SplitStartsWith(parts, "", DescriptorSep);
    assert s + "" == s;
    PiecesOfJoin(parts, DescriptorSep);
    var sp := Split(s, DescriptorSep);
    assert |sp| <= |parts|;
    assert sp == sp[..|parts|] == parts;
  }

  /** A descriptor naming a registered factory is that factory applied to
      the descriptor's arguments. */
  lemma HandlerOfJoined<H>(factories: map<string, Factory<H>>, name: string, args: seq<string>)
    requires name in factories && name != "" && !Contains(name, DescriptorSep)
    requires |args| > 0 ==> args[|args| - 1] != ""
    requires forall k :: 0 <= k < |args| ==> !Contains(args[k], DescriptorSep)
    ensures GetHandler(factories, Join([name] + args, [DescriptorSep])) == factories[name](args)
  {
    var parts := [name] + args;
    assert parts[1..] == args;
    ParseJoined(parts);
  }

  /** After a name is registered, descriptors with that name go to the new
      factory, whatever was registered under it before, and descriptors
      with other names are unaffected. */
  lemma RegisterReplaces<H>(factories: map<string, Factory<H>>, name: string, f: Factory<H>, descr: string)
    requires Parse(descr).Success?
    ensures Parse(descr).value.0 == name ==>
              GetHandler(factories[name := f], descr) == f(Parse(descr).value.1)
    ensures Parse(descr).value.0 != name && Parse(descr).value.0 in factories ==>
              GetHandler(factories[name := f], descr) == GetHandler(factories, descr)
  {
  }

  /** The static factory map. */
  class Registry<H> {
    var factories: map<string, Factory<H>>

    /** Nothing is registered at first. */
    constructor ()
      ensures factories == map[]
    {
      factories := map[];
    }

    /** `registerHandlerFactory`: a put into the map, replacing any factory
        already registered under the name. */
    method Register(name: string, factory: Factory<H>)
      modifies this
      ensures factories == old(factories)[name := factory]
    {
      factories := factories[name := factory];
    }
  }
}
