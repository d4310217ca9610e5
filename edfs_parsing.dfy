/**
 * Reading the arguments of the event-driven directives (`@edfs__kafkaPublish`,
 * `@edfs__kafkaSubscribe`, `@edfs__natsPublish`, `@edfs__natsRequest`,
 * `@edfs__natsSubscribe`) into event configurations, with the messages that
 * make a directive invalid.
 */
module EdfsParsing {
  import opened Ast
  import opened Model

  /** What the arguments read so far have produced. */
  datatype EventArguments = EventArguments(
    subjects: seq<string>, providerId: string, consumerName: string, streamName: string,
    messages: seq<EventMessage>)

  const InitialEventArguments := EventArguments([], DefaultEdfsProviderId, "", "", [])

  /**
   * The arguments a directive reads: the name of its topic/subject argument, whether that
   * argument is a list, and whether a `streamConfiguration` argument is read.
   */
  datatype EventArgumentShape = EventArgumentShape(subjectArgument: string, subjectsAreList: bool,
                                                   readsStreamConfiguration: bool)

  const KafkaPublishShape := EventArgumentShape(TopicArgument, false, false)
  const KafkaSubscribeShape := EventArgumentShape(TopicsArgument, true, false)
  const NatsPublishAndRequestShape := EventArgumentShape(SubjectArgument, false, false)
  const NatsSubscribeShape := EventArgumentShape(SubjectsArgument, true, true)

  /** A single topic/subject: a non-empty string, checked for template references, else a message. */
  function SubjectStep(argumentName: string, v: Value, argumentNames: set<string>, ext: External,
                       acc: EventArguments): EventArguments
  {
    if !IsNonEmptyString(v) then acc.(messages := acc.messages + [InvalidEventSubject(argumentName)])
    else acc.(subjects := acc.subjects + [v.s], messages := acc.messages + ext.argumentTemplateErrors(v.s, argumentNames))
  }

  /** The items of a topics/subjects list, up to and including the first that is not a non-empty string. */
  function SubjectItems(argumentName: string, items: seq<Value>, argumentNames: set<string>, ext: External,
                        acc: EventArguments): EventArguments
    decreases |items|
  {
    if items == [] then acc
    else if !IsNonEmptyString(items[0]) then acc.(messages := acc.messages + [InvalidEventSubjectsItem(argumentName)])
    else SubjectItems(argumentName, items[1..], argumentNames, ext,
                      acc.(subjects := acc.subjects + [items[0].s],
                           messages := acc.messages + ext.argumentTemplateErrors(items[0].s, argumentNames)))
  }

  function SubjectsStep(argumentName: string, v: Value, argumentNames: set<string>, ext: External,
                        acc: EventArguments): EventArguments
  {
    if !v.ListValue? then acc.(messages := acc.messages + [InvalidEventSubjects(argumentName)])
    else SubjectItems(argumentName, v.values, argumentNames, ext, acc)
  }

  function ProviderIdStep(v: Value, acc: EventArguments): EventArguments {
    if !IsNonEmptyString(v) then acc.(messages := acc.messages + [InvalidEventProviderId])
    else acc.(providerId := v.s)
  }

  // ----- the streamConfiguration object -----

  /** The fields of a `streamConfiguration` object read so far. */
  datatype StreamFieldScan = StreamFieldScan(
    missing: set<string>, duplicate: set<string>, invalidRequired: set<string>, invalid: set<string>,
    isValid: bool, consumerName: string, streamName: string)

  function StreamFieldStep(f: ObjectField, acc: StreamFieldScan): StreamFieldScan {
    if f.name !in StreamConfigurationFieldNames then acc.(invalid := acc.invalid + {f.name}, isValid := false)
    else if f.name !in acc.missing then acc.(duplicate := acc.duplicate + {f.name}, isValid := false)
    else if !IsNonEmptyString(f.value) then
      acc.(missing := acc.missing - {f.name}, invalidRequired := acc.invalidRequired + {f.name}, isValid := false)
    else if f.name == ConsumerNameField then acc.(missing := acc.missing - {f.name}, consumerName := f.value.s)
    else acc.(missing := acc.missing - {f.name}, streamName := f.value.s)
  }

  function ScanStreamFields(fields: seq<ObjectField>, acc: StreamFieldScan): StreamFieldScan
    decreases |fields|
  {
    if fields == [] then acc else ScanStreamFields(fields[1..], StreamFieldStep(fields[0], acc))
  }

  /** A scan that starts with both required names missing and carries the names read so far. */
  function InitialStreamFieldScan(consumerName: string, streamName: string): StreamFieldScan {
    StreamFieldScan(StreamConfigurationFieldNames, {}, {}, {}, true, consumerName, streamName)
  }

  /** The `streamConfiguration` argument: a non-empty object whose fields must all be acceptable. */
  function StreamConfigurationStep(v: Value, acc: EventArguments): EventArguments {
    if !v.ObjectValue? || |v.fields| < 1 then acc.(messages := acc.messages + [InvalidNatsStreamInput])
    else
      var scan := ScanStreamFields(v.fields, InitialStreamFieldScan(acc.consumerName, acc.streamName));
      acc.(consumerName := scan.consumerName, streamName := scan.streamName,
           messages := acc.messages +
             (if !scan.isValid || scan.missing != {} then
                [InvalidNatsStreamInputFields(scan.missing, scan.duplicate, scan.invalidRequired, scan.invalid)]
              else []))
  }

  // ----- whole directives -----

  function EventArgumentStep(shape: EventArgumentShape, a: Argument, argumentNames: set<string>, ext: External,
                             acc: EventArguments): EventArguments
  {
    if a.name == shape.subjectArgument then
      if shape.subjectsAreList then SubjectsStep(a.name, a.value, argumentNames, ext, acc)
      else SubjectStep(a.name, a.value, argumentNames, ext, acc)
    else if a.name == ProviderIdArgument then ProviderIdStep(a.value, acc)
    else if shape.readsStreamConfiguration && a.name == StreamConfigurationArgument then StreamConfigurationStep(a.value, acc)
    else acc
  }

  /** Reads the arguments of one event directive of the given shape, in order; unknown arguments are skipped. */
  function ParseEventArguments(shape: EventArgumentShape, args: seq<Argument>, argumentNames: set<string>,
                               ext: External, acc: EventArguments): EventArguments
    decreases |args|
  {
    if args == [] then acc
    else ParseEventArguments(shape, args[1..], argumentNames, ext, EventArgumentStep(shape, args[0], argumentNames, ext, acc))
  }

  /** The Kafka configuration read from the arguments: none at all when there is a message. */
  function KafkaConfiguration(fieldName: string, parsed: EventArguments, eventType: EventType): Option<EventConfiguration> {
    if |parsed.messages| > 0 then None
    else Some(KafkaEventConfiguration(fieldName, parsed.providerId, parsed.subjects, eventType))
  }

  /** The NATS configuration read from the arguments; it has a stream configuration only when both names are set. */
  function NatsConfiguration(fieldName: string, parsed: EventArguments, eventType: EventType): Option<EventConfiguration> {
    if |parsed.messages| > 0 then None
    else Some(NatsEventConfiguration(fieldName, parsed.providerId, parsed.subjects, eventType,
                                     if parsed.consumerName != "" && parsed.streamName != ""
                                     then Some(StreamConfiguration(parsed.consumerName, parsed.streamName))
                                     else None))
  }

  // ----- properties of the argument readers -----

  /**
   * The provider id is the default unless a `providerId` argument carries a non-empty string,
   * in which case it is the value of such an argument.
   */
  lemma {:induction false} ParsedProviderId(shape: EventArgumentShape, args: seq<Argument>, argumentNames: set<string>,
                                            ext: External, acc: EventArguments)
    ensures var r := ParseEventArguments(shape, args, argumentNames, ext, acc);
      && ((forall i :: 0 <= i < |args| ==> args[i].name != ProviderIdArgument) ==> r.providerId == acc.providerId)
      && (r.providerId == acc.providerId ||
          exists i :: 0 <= i < |args| && args[i] == Argument(ProviderIdArgument, StringValue(r.providerId)) && r.providerId != "")
    decreases |args|
  {
    if args != [] {
      var next := EventArgumentStep(shape, args[0], argumentNames, ext, acc);
      ParsedProviderId(shape, args[1..], argumentNames, ext, next);
      assert forall i :: 0 < i < |args| ==> args[i] == args[1..][i - 1];
      var r := ParseEventArguments(shape, args, argumentNames, ext, acc);
      if r.providerId != acc.providerId && r.providerId == next.providerId {
        StepKeepsOtherProviderId(shape, args[0], argumentNames, ext, acc);
      }
      if args[0].name != ProviderIdArgument {
        StepKeepsOtherProviderId(shape, args[0], argumentNames, ext, acc);
      }
    }
  }

  lemma StepKeepsOtherProviderId(shape: EventArgumentShape, a: Argument, argumentNames: set<string>, ext: External,
                                 acc: EventArguments)
    ensures var next := EventArgumentStep(shape, a, argumentNames, ext, acc);
      next.providerId == acc.providerId ||
      (a == Argument(ProviderIdArgument, StringValue(next.providerId)) && next.providerId != "")
  {
    if a.name == shape.subjectArgument && shape.subjectsAreList && a.value.ListValue? {
      SubjectItemsKeepsProviderId(a.name, a.value.values, argumentNames, ext, acc);
    } else if a.name != shape.subjectArgument && a.name == ProviderIdArgument {
      assert a.value.StringValue? ==> a.value == StringValue(a.value.s);
    }
  }

  lemma {:induction false} SubjectItemsKeepsProviderId(argumentName: string, items: seq<Value>, argumentNames: set<string>,
                                                       ext: External, acc: EventArguments)
    ensures SubjectItems(argumentName, items, argumentNames, ext, acc).providerId == acc.providerId
    ensures SubjectItems(argumentName, items, argumentNames, ext, acc).consumerName == acc.consumerName
    ensures SubjectItems(argumentName, items, argumentNames, ext, acc).streamName == acc.streamName
    decreases |items|
  {
    if items != [] && IsNonEmptyString(items[0]) {
      SubjectItemsKeepsProviderId(argumentName, items[1..], argumentNames, ext,
                                  acc.(subjects := acc.subjects + [items[0].s],
                                       messages := acc.messages + ext.argumentTemplateErrors(items[0].s, argumentNames)));
    }
  }

  /** Messages and subjects are only ever appended, and every subject read is a non-empty string. */
  lemma {:induction false} SubjectItemsAppend(argumentName: string, items: seq<Value>, argumentNames: set<string>,
                                              ext: External, acc: EventArguments)
    ensures var r := SubjectItems(argumentName, items, argumentNames, ext, acc);
      && acc.messages <= r.messages && acc.subjects <= r.subjects
      && (forall i :: |acc.subjects| <= i < |r.subjects| ==> r.subjects[i] != "")
      && ((exists i :: 0 <= i < |items| && !IsNonEmptyString(items[i])) ==> |r.messages| > |acc.messages|)
    decreases |items|
  {
    if items != [] && IsNonEmptyString(items[0]) {
      var next := acc.(subjects := acc.subjects + [items[0].s],
                       messages := acc.messages + ext.argumentTemplateErrors(items[0].s, argumentNames));
      SubjectItemsAppend(argumentName, items[1..], argumentNames, ext, next);
      assert forall i :: 0 < i < |items| ==> items[i] == items[1..][i - 1];
    }
  }

  lemma EventArgumentStepAppends(shape: EventArgumentShape, a: Argument, argumentNames: set<string>, ext: External,
                                 acc: EventArguments)
    ensures var r := EventArgumentStep(shape, a, argumentNames, ext, acc);
      && acc.messages <= r.messages && acc.subjects <= r.subjects
      && (forall i :: |acc.subjects| <= i < |r.subjects| ==> r.subjects[i] != "")
  {
    if a.name == shape.subjectArgument && shape.subjectsAreList && a.value.ListValue? {
      SubjectItemsAppend(a.name, a.value.values, argumentNames, ext, acc);
    }
  }

  /**
   * Reading arguments only appends messages and subjects, and every subject it reads is a
   * non-empty string.
   */
  lemma {:induction false} ParseEventArgumentsAppends(shape: EventArgumentShape, args: seq<Argument>,
                                                      argumentNames: set<string>, ext: External, acc: EventArguments)
    ensures var r := ParseEventArguments(shape, args, argumentNames, ext, acc);
      && acc.messages <= r.messages && acc.subjects <= r.subjects
      && (forall i :: |acc.subjects| <= i < |r.subjects| ==> r.subjects[i] != "")
    decreases |args|
  {
    if args != [] {
      var next := EventArgumentStep(shape, args[0], argumentNames, ext, acc);
      EventArgumentStepAppends(shape, args[0], argumentNames, ext, acc);
      ParseEventArgumentsAppends(shape, args[1..], argumentNames, ext, next);
    }
  }

  /** A malformed topic/subject argument always yields a message, and hence no configuration. */
  lemma MalformedSubjectIsRejected(shape: EventArgumentShape, args: seq<Argument>, i: nat, argumentNames: set<string>,
                                   ext: External, acc: EventArguments)
    requires i < |args| && args[i].name == shape.subjectArgument
    requires if shape.subjectsAreList then !args[i].value.ListValue? else !IsNonEmptyString(args[i].value)
    ensures |ParseEventArguments(shape, args, argumentNames, ext, acc).messages| > 0
    decreases i
  {
    if i == 0 {
      var next := EventArgumentStep(shape, args[0], argumentNames, ext, acc);
      ParseEventArgumentsAppends(shape, args[1..], argumentNames, ext, next);
    } else {
      MalformedSubjectIsRejected(shape, args[1..], i - 1, argumentNames, ext,
                                 EventArgumentStep(shape, args[0], argumentNames, ext, acc));
    }
  }

  // ----- properties of the streamConfiguration check -----

  /**
   * The fields are acceptable against the names still `missing`: each field names a required
   * field not yet seen and carries a non-empty string.
   */
  predicate AcceptableStreamFields(fields: seq<ObjectField>, missing: set<string>)
    decreases |fields|
  {
    fields == [] ||
    (fields[0].name in missing && IsNonEmptyString(fields[0].value) && AcceptableStreamFields(fields[1..], missing - {fields[0].name}))
  }

  function FieldNames(fields: seq<ObjectField>): set<string> {
    set i | 0 <= i < |fields| :: fields[i].name
  }

  /**
   * The scan stays valid exactly while the fields are acceptable, and the names still missing
   * are the required names that no field mentions.
   */
  lemma {:induction false} ScanStreamFieldsSpec(fields: seq<ObjectField>, acc: StreamFieldScan)
    requires acc.missing <= StreamConfigurationFieldNames
    ensures var r := ScanStreamFields(fields, acc);
      && (r.isValid <==> acc.isValid && AcceptableStreamFields(fields, acc.missing))
      && r.missing == acc.missing - FieldNames(fields)
    decreases |fields|
  {
    if fields != [] {
      var f := fields[0];
      ScanStreamFieldsSpec(fields[1..], StreamFieldStep(f, acc));
      assert FieldNames(fields) == {f.name} + FieldNames(fields[1..]) by {
        forall x ensures x in FieldNames(fields) <==> x in {f.name} + FieldNames(fields[1..]) {
          if x in FieldNames(fields) {
            var i :| 0 <= i < |fields| && fields[i].name == x;
            if i > 0 { assert fields[1..][i - 1].name == x; }
          }
          if x in FieldNames(fields[1..]) {
            var i :| 0 <= i < |fields[1..]| && fields[1..][i].name == x;
            assert fields[i + 1].name == x;
          }
        }
      }
      if f.name !in acc.missing || !IsNonEmptyString(f.value) {
        assert !AcceptableStreamFields(fields, acc.missing);
      }
    }
  }

  /** The required names a scan leaves missing and the names it reads are only ever set by fields that carry them. */
  lemma {:induction false} ScanStreamFieldsNames(fields: seq<ObjectField>, acc: StreamFieldScan)
    ensures var r := ScanStreamFields(fields, acc);
      && (r.consumerName == acc.consumerName ||
          exists i :: 0 <= i < |fields| && fields[i] == ObjectField(ConsumerNameField, StringValue(r.consumerName)) && r.consumerName != "")
      && (r.streamName == acc.streamName ||
          exists i :: 0 <= i < |fields| && fields[i] == ObjectField(StreamNameField, StringValue(r.streamName)) && r.streamName != "")
    decreases |fields|
  {
    if fields != [] {
      var f := fields[0];
      var next := StreamFieldStep(f, acc);
      ScanStreamFieldsNames(fields[1..], next);
      assert forall i :: 0 < i < |fields| ==> fields[i] == fields[1..][i - 1];
      assert f.value.StringValue? ==> f.value == StringValue(f.value.s);
    }
  }

  predicate NoRepeatedFieldNames(fields: seq<ObjectField>) {
    forall i, j :: 0 <= i < j < |fields| ==> fields[i].name != fields[j].name
  }

  /**
   * Acceptable fields, stated without recursion: every field names a required field still
   * missing and carries a non-empty string, and no field name repeats.
   */
  lemma {:induction false} AcceptableStreamFieldsIff(fields: seq<ObjectField>, missing: set<string>)
    ensures AcceptableStreamFields(fields, missing) <==>
      (forall i :: 0 <= i < |fields| ==> fields[i].name in missing && IsNonEmptyString(fields[i].value))
      && NoRepeatedFieldNames(fields)
    decreases |fields|
  {
    if fields != [] {
      var f, t := fields[0], fields[1..];
      AcceptableStreamFieldsIff(t, missing - {f.name});
      assert forall i :: 0 < i < |fields| ==> fields[i] == t[i - 1];
      if AcceptableStreamFields(fields, missing) {
        forall i, j | 0 <= i < j < |fields| ensures fields[i].name != fields[j].name {
          if i > 0 { assert t[i - 1].name != t[j - 1].name; }
          else { assert t[j - 1].name in missing - {f.name}; }
        }
      }
      if (forall i :: 0 <= i < |fields| ==> fields[i].name in missing && IsNonEmptyString(fields[i].value))
         && NoRepeatedFieldNames(fields)
      {
        forall i | 0 <= i < |t| ensures t[i].name in missing - {f.name} {
          assert fields[i + 1] == t[i];
          assert fields[0].name != fields[i + 1].name;
        }
        assert NoRepeatedFieldNames(t) by {
          forall i, j | 0 <= i < j < |t| ensures t[i].name != t[j].name {
            assert fields[i + 1].name != fields[j + 1].name;
          }
        }
      }
    }
  }

  /**
   * A `streamConfiguration` object passes exactly when every field is `consumerName` or
   * `streamName` with a non-empty string, no field repeats and both are present; the
   * resulting names are then the values of those fields.
   */
  lemma StreamConfigurationSpec(v: Value, acc: EventArguments)
    requires v.ObjectValue?
    ensures var r := StreamConfigurationStep(v, acc);
      r.messages == acc.messages <==>
        && |v.fields| > 0
        && (forall i :: 0 <= i < |v.fields| ==>
              v.fields[i].name in StreamConfigurationFieldNames && IsNonEmptyString(v.fields[i].value))
        && NoRepeatedFieldNames(v.fields)
        && StreamConfigurationFieldNames <= FieldNames(v.fields)
  {
    if |v.fields| > 0 {
      var init := InitialStreamFieldScan(acc.consumerName, acc.streamName);
      ScanStreamFieldsSpec(v.fields, init);
      AcceptableStreamFieldsIff(v.fields, StreamConfigurationFieldNames);
      var scan := ScanStreamFields(v.fields, init);
      var names := FieldNames(v.fields);
      assert scan.missing == StreamConfigurationFieldNames - names;
      if scan.missing == {} {
        forall n | n in StreamConfigurationFieldNames ensures n in names {
          assert n !in scan.missing;
        }
      }
    }
  }

  // ----- the argument readers -----

  method ReadSubjectItems(argumentName: string, items: seq<Value>, argumentNames: set<string>, ext: External,
                          acc: EventArguments) returns (r: EventArguments)
    ensures r == SubjectItems(argumentName, items, argumentNames, ext, acc)
  {
    r := acc;
    var i := 0;
    while i < |items|
      invariant 0 <= i <= |items|
      invariant SubjectItems(argumentName, items[i..], argumentNames, ext, r) == SubjectItems(argumentName, items, argumentNames, ext, acc)
    {
      assert items[i..][0] == items[i] && items[i..][1..] == items[i + 1..];
      var v := items[i];
      if !IsNonEmptyString(v) {
        return r.(messages := r.messages + [InvalidEventSubjectsItem(argumentName)]);
      }
      r := r.(subjects := r.subjects + [v.s], messages := r.messages + ext.argumentTemplateErrors(v.s, argumentNames));
      i := i + 1;
    }
  }

  /** Reads the fields of a `streamConfiguration` object, starting from the names read so far. */
  method ReadStreamConfigurationFields(fields: seq<ObjectField>, consumerName: string, streamName: string)
    returns (scan: StreamFieldScan)
    ensures scan == ScanStreamFields(fields, InitialStreamFieldScan(consumerName, streamName))
  {
    scan := InitialStreamFieldScan(consumerName, streamName);
    for i := 0 to |fields|
      invariant ScanStreamFields(fields[i..], scan) == ScanStreamFields(fields, InitialStreamFieldScan(consumerName, streamName))
    {
      assert fields[i..][0] == fields[i] && fields[i..][1..] == fields[i + 1..];
      var f := fields[i];
      if f.name !in StreamConfigurationFieldNames {
        scan := scan.(invalid := scan.invalid + {f.name}, isValid := false);
        continue;
      }
      if f.name in scan.missing {
        scan := scan.(missing := scan.missing - {f.name});
      } else {
        scan := scan.(duplicate := scan.duplicate + {f.name}, isValid := false);
        continue;
      }
      if !IsNonEmptyString(f.value) {
        scan := scan.(invalidRequired := scan.invalidRequired + {f.name}, isValid := false);
        continue;
      }
      if f.name == ConsumerNameField {
        scan := scan.(consumerName := f.value.s);
      } else {
        scan := scan.(streamName := f.value.s);
      }
    }
    assert fields[|fields|..] == [];
  }

  /** Reads the arguments of one event directive of the given shape. */
  method ReadEventArguments(shape: EventArgumentShape, args: seq<Argument>, argumentNames: set<string>, ext: External)
    returns (r: EventArguments)
    ensures r == ParseEventArguments(shape, args, argumentNames, ext, InitialEventArguments)
  {
    r := InitialEventArguments;
    for i := 0 to |args|
      invariant ParseEventArguments(shape, args[i..], argumentNames, ext, r) == ParseEventArguments(shape, args, argumentNames, ext, InitialEventArguments)
    {
      assert args[i..][0] == args[i] && args[i..][1..] == args[i + 1..];
      var a := args[i];
      var prev := r;
      if a.name == shape.subjectArgument {
        if shape.subjectsAreList {
          if !a.value.ListValue? {
            r := r.(messages := r.messages + [InvalidEventSubjects(a.name)]);
          } else {
            r := ReadSubjectItems(a.name, a.value.values, argumentNames, ext, r);
          }
        } else if !IsNonEmptyString(a.value) {
          r := r.(messages := r.messages + [InvalidEventSubject(a.name)]);
        } else {
          r := r.(subjects := r.subjects + [a.value.s], messages := r.messages + ext.argumentTemplateErrors(a.value.s, argumentNames));
        }
      } else if a.name == ProviderIdArgument {
        if !IsNonEmptyString(a.value) {
          r := r.(messages := r.messages + [InvalidEventProviderId]);
        } else {
          r := r.(providerId := a.value.s);
        }
      } else if shape.readsStreamConfiguration && a.name == StreamConfigurationArgument {
        if !a.value.ObjectValue? || |a.value.fields| < 1 {
          r := r.(messages := r.messages + [InvalidNatsStreamInput]);
        } else {
          var scan := ReadStreamConfigurationFields(a.value.fields, r.consumerName, r.streamName);
          r := r.(consumerName := scan.consumerName, streamName := scan.streamName);
          if !scan.isValid || scan.missing != {} {
            r := r.(messages := r.messages +
                    [InvalidNatsStreamInputFields(scan.missing, scan.duplicate, scan.invalidRequired, scan.invalid)]);
          }
        }
      }
      assert r == EventArgumentStep(shape, a, argumentNames, ext, prev);
    }
    assert args[|args|..] == [];
  }

  /**
   * `@edfs__kafkaPublish(topic:, providerId:)`: a publish configuration for the field with the
   * topics read and the provider id (the default when none is given), or none when any
   * argument is malformed.
   */
  method GetKafkaPublishConfiguration(fieldName: string, directive: Directive, argumentNames: set<string>, ext: External)
    returns (configuration: Option<EventConfiguration>, messages: seq<EventMessage>)
    ensures var parsed := ParseEventArguments(KafkaPublishShape, directive.arguments, argumentNames, ext, InitialEventArguments);
      && messages == parsed.messages
      && configuration == KafkaConfiguration(fieldName, parsed, Publish)
    ensures configuration.Some? <==> messages == []
  {
    var parsed := ReadEventArguments(KafkaPublishShape, directive.arguments, argumentNames, ext);
    messages := parsed.messages;
    if |messages| > 0 {
      return None, messages;
    }
    configuration := Some(KafkaEventConfiguration(fieldName, parsed.providerId, parsed.subjects, Publish));
  }

  /** `@edfs__kafkaSubscribe(topics:, providerId:)`: as publishing, with a list of topics. */
  method GetKafkaSubscribeConfiguration(fieldName: string, directive: Directive, argumentNames: set<string>, ext: External)
    returns (configuration: Option<EventConfiguration>, messages: seq<EventMessage>)
    ensures var parsed := ParseEventArguments(KafkaSubscribeShape, directive.arguments, argumentNames, ext, InitialEventArguments);
      && messages == parsed.messages
      && configuration == KafkaConfiguration(fieldName, parsed, Subscribe)
    ensures configuration.Some? <==> messages == []
  {
    var parsed := ReadEventArguments(KafkaSubscribeShape, directive.arguments, argumentNames, ext);
    messages := parsed.messages;
    if |messages| > 0 {
      return None, messages;
    }
    configuration := Some(KafkaEventConfiguration(fieldName, parsed.providerId, parsed.subjects, Subscribe));
  }

  /** `@edfs__natsPublish(subject:, providerId:)` and `@edfs__natsRequest(...)`, by event type. */
  method GetNatsPublishAndRequestConfiguration(eventType: EventType, fieldName: string, directive: Directive,
                                               argumentNames: set<string>, ext: External)
    returns (configuration: Option<EventConfiguration>, messages: seq<EventMessage>)
    requires eventType != Subscribe
    ensures var parsed := ParseEventArguments(NatsPublishAndRequestShape, directive.arguments, argumentNames, ext, InitialEventArguments);
      && messages == parsed.messages
      && configuration == NatsConfiguration(fieldName, parsed, eventType)
    ensures configuration.Some? <==> messages == []
    ensures configuration.Some? ==> configuration.value.streamConfiguration.None?
  {
    var parsed := ReadEventArguments(NatsPublishAndRequestShape, directive.arguments, argumentNames, ext);
    NatsPublishReadsNoStream(directive.arguments, argumentNames, ext, InitialEventArguments);
    messages := parsed.messages;
    if |messages| > 0 {
      return None, messages;
    }
    configuration := Some(NatsEventConfiguration(fieldName, parsed.providerId, parsed.subjects, eventType, None));
  }

  /**
   * `@edfs__natsSubscribe(subjects:, providerId:, streamConfiguration:)`: a subscribe
   * configuration, carrying a stream configuration only when both names were read.
   */
  method GetNatsSubscribeConfiguration(fieldName: string, directive: Directive, argumentNames: set<string>, ext: External)
    returns (configuration: Option<EventConfiguration>, messages: seq<EventMessage>)
    ensures var parsed := ParseEventArguments(NatsSubscribeShape, directive.arguments, argumentNames, ext, InitialEventArguments);
      && messages == parsed.messages
      && configuration == NatsConfiguration(fieldName, parsed, Subscribe)
    ensures configuration.Some? <==> messages == []
    ensures configuration.Some? && configuration.value.streamConfiguration.Some? ==>
      configuration.value.streamConfiguration.value.consumerName != "" &&
      configuration.value.streamConfiguration.value.streamName != ""
  {
    var parsed := ReadEventArguments(NatsSubscribeShape, directive.arguments, argumentNames, ext);
    messages := parsed.messages;
    if |messages| > 0 {
      return None, messages;
    }
    var streamConfiguration: Option<StreamConfiguration> := None;
    if parsed.consumerName != "" && parsed.streamName != "" {
      streamConfiguration := Some(StreamConfiguration(parsed.consumerName, parsed.streamName));
    }
    configuration := Some(NatsEventConfiguration(fieldName, parsed.providerId, parsed.subjects, Subscribe, streamConfiguration));
  }

  /** Publish and request directives never read a stream configuration: both names stay empty. */
  lemma {:induction false} NatsPublishReadsNoStream(args: seq<Argument>, argumentNames: set<string>, ext: External,
                                                    acc: EventArguments)
    requires acc.consumerName == "" && acc.streamName == ""
    ensures ParseEventArguments(NatsPublishAndRequestShape, args, argumentNames, ext, acc).consumerName == ""
    ensures ParseEventArguments(NatsPublishAndRequestShape, args, argumentNames, ext, acc).streamName == ""
    decreases |args|
  {
    if args != [] {
      NatsPublishReadsNoStream(args[1..], argumentNames, ext, EventArgumentStep(NatsPublishAndRequestShape, args[0], argumentNames, ext, acc));
    }
  }

  // ----- the event directives of one root field -----

  /**
   * Reads one directive of a root field: the configuration and messages of an event
   * directive, or nothing for any other directive.
   */
  function ReadEventDirective(d: Directive, fieldName: string, argumentNames: set<string>, ext: External)
    : Option<(Option<EventConfiguration>, seq<EventMessage>)>
  {
    if d.name == EdfsKafkaPublish then
      var p := ParseEventArguments(KafkaPublishShape, d.arguments, argumentNames, ext, InitialEventArguments);
      Some((KafkaConfiguration(fieldName, p, Publish), p.messages))
    else if d.name == EdfsKafkaSubscribe then
      var p := ParseEventArguments(KafkaSubscribeShape, d.arguments, argumentNames, ext, InitialEventArguments);
      Some((KafkaConfiguration(fieldName, p, Subscribe), p.messages))
    else if d.name == EdfsNatsPublish || d.name == EdfsNatsRequest then
      var p := ParseEventArguments(NatsPublishAndRequestShape, d.arguments, argumentNames, ext, InitialEventArguments);
      Some((NatsConfiguration(fieldName, p, if d.name == EdfsNatsPublish then Publish else Request), p.messages))
    else if d.name == EdfsNatsSubscribe then
      var p := ParseEventArguments(NatsSubscribeShape, d.arguments, argumentNames, ext, InitialEventArguments);
      Some((NatsConfiguration(fieldName, p, Subscribe), p.messages))
    else None
  }

  /** The configurations read from a field's event directives, and the errors of the malformed ones. */
  datatype EventExtraction = EventExtraction(configurations: seq<EventConfiguration>, errors: seq<ErrorKind>)

  function EventDirectiveStep(d: Directive, fieldName: string, fieldPath: Path, argumentNames: set<string>,
                              ext: External, acc: EventExtraction): EventExtraction
  {
    match ReadEventDirective(d, fieldName, argumentNames, ext)
    case None => acc
    case Some((configuration, messages)) =>
      if messages != [] then acc.(errors := acc.errors + [InvalidEventDirective(d.name, fieldPath, messages)])
      else if configuration.None? then acc
      else acc.(configurations := acc.configurations + [configuration.value])
  }

  function ExtractEventDirectives(ds: seq<Directive>, fieldName: string, fieldPath: Path, argumentNames: set<string>,
                                  ext: External, acc: EventExtraction): EventExtraction
    decreases |ds|
  {
    if ds == [] then acc
    else ExtractEventDirectives(ds[1..], fieldName, fieldPath, argumentNames, ext,
                                EventDirectiveStep(ds[0], fieldName, fieldPath, argumentNames, ext, acc))
  }

  /**
   * Each directive yields at most one configuration or one error, never both; every
   * configuration is for the field, and every error is about an event directive of it.
   */
  lemma {:induction false} ExtractEventDirectivesSpec(ds: seq<Directive>, fieldName: string, fieldPath: Path,
                                                      argumentNames: set<string>, ext: External, acc: EventExtraction)
    ensures var x := ExtractEventDirectives(ds, fieldName, fieldPath, argumentNames, ext, acc);
      && acc.configurations <= x.configurations && acc.errors <= x.errors
      && |x.configurations| - |acc.configurations| + |x.errors| - |acc.errors| <= |ds|
      && (forall i :: |acc.configurations| <= i < |x.configurations| ==> x.configurations[i].fieldName == fieldName)
      && (forall i :: |acc.errors| <= i < |x.errors| ==>
            x.errors[i].InvalidEventDirective? && x.errors[i].directiveName in EventDirectiveNames &&
            x.errors[i].fieldPath == fieldPath && x.errors[i].eventMessages != [])
    decreases |ds|
  {
    if ds != [] {
      var next := EventDirectiveStep(ds[0], fieldName, fieldPath, argumentNames, ext, acc);
      ExtractEventDirectivesSpec(ds[1..], fieldName, fieldPath, argumentNames, ext, next);
    }
  }

  /** Directives that are not event directives are ignored. */
  lemma {:induction false} OtherDirectivesIgnored(ds: seq<Directive>, fieldName: string, fieldPath: Path,
                                                  argumentNames: set<string>, ext: External, acc: EventExtraction)
    requires forall i :: 0 <= i < |ds| ==> ds[i].name !in EventDirectiveNames
    ensures ExtractEventDirectives(ds, fieldName, fieldPath, argumentNames, ext, acc) == acc
    decreases |ds|
  {
    if ds != [] {
      assert ds[0].name !in EventDirectiveNames;
      OtherDirectivesIgnored(ds[1..], fieldName, fieldPath, argumentNames, ext, acc);
    }
  }
}
