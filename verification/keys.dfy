/** The identity of one error-check file, parsed from its object-store key.
    A key has one of two shapes:
      CSV / MODULE / FORM_VER / PACKET / form_<FORM_NAME>_<...>.csv
      CSV / ENROLL / FORM_VER / <filename>
    and anything else is rejected. */
module ErrorCheckKeys {
  import opened Results
  import opened Strings

  const TopLevel: string := "CSV"
  const EnrollModule: string := "ENROLL"
  const EnrollFormName: string := "enrl"
  const HeaderToken: string := "header"

  /** `ErrorCheckKey`; `packet` is `None` exactly for the enrollment shape. */
  datatype ErrorCheckKey = ErrorCheckKey(
    fullPath: string,
    csv: string,
    moduleName: string,
    formVer: string,
    filename: string,
    formName: string,
    packet: Option<string>)

  /** The ways `create_from_key` raises. The first two are `ValueError`s;
      the third is the `assert module == 'ENROLL'` failing; the fourth is the
      `IndexError` of `filename.split('_')[1]` on a filename without `_`. */
  datatype KeyError =
    | NotCsvTopLevel
    | MalformedKey(key: string)
    | NotEnrollModule(moduleName: string)
    | NoFormNameToken(filename: string)
  {
    predicate IsValueError() {
      NotCsvTopLevel? || MalformedKey?
    }

    /** The text of the raised exception. */
    function Message(): string {
      match this
      case NotCsvTopLevel => "Expected CSV at top level of S3 key"
      case MalformedKey(key) =>
        "Cannot parse ErrorCheckKey components from " + key + "; " +
        "Expected to be of the form " +
        "CSV / MODULE / FORM_VER / PACKET / filename"
      case NotEnrollModule(_) => ""
      case NoFormNameToken(_) => "list index out of range"
    }
  }

  /** The second `_`-separated token of `filename`, or `None` when there is none. */
  function SecondToken(filename: string): (t: Option<string>)
    ensures t.None? <==> '_' !in filename
    ensures t.Some? ==> '_' !in t.value
  {
    var tokens := Split(filename, '_');
    if |tokens| < 2 then
      assert '_' !in filename by { SplitWithoutUnderscoreIsOne(filename); }
      None
    else
      assert '_' in filename by {
        if '_' !in filename { SplitWithoutSeparator(filename, '_'); }
      }
      Some(tokens[1])
  }

  lemma {:induction false} SplitWithoutUnderscoreIsOne(filename: string)
    requires |Split(filename, '_')| < 2
    ensures '_' !in filename
  {
    var tokens := Split(filename, '_');
    assert tokens == [tokens[0]];
    assert Join(tokens, '_') == tokens[0];
  }

  /** The form name of a five-segment key: the second `_`-token of the
      filename, except that the token `header` names the module's header
      form, `<module lower-cased>_header`. */
  function FormNameOf(moduleName: string, filename: string): (r: Result<string, KeyError>)
    ensures r.Failure? <==> '_' !in filename
    ensures r.Failure? ==> r.error == NoFormNameToken(filename)
    ensures r.Success? && SecondToken(filename) == Some(HeaderToken) ==>
      r.value == Lower(moduleName) + "_header"
    ensures r.Success? && SecondToken(filename) != Some(HeaderToken) ==>
      Some(r.value) == SecondToken(filename) && '_' !in r.value
  {
    match SecondToken(filename)
    case None => Failure(NoFormNameToken(filename))
    case Some(token) =>
      if token == HeaderToken then Success(Lower(moduleName) + "_header") else Success(token)
  }

  /** The second token, stated without `Split`: in a filename made of a
      first token, `_`, a token and then nothing or another `_`-led rest, the
      second token is that token. Every filename holding `_` has exactly one
      such decomposition, so this pins `SecondToken` down. */
  lemma {:induction false} SecondTokenOf(first: string, token: string, rest: string)
    requires '_' !in first && '_' !in token
    requires rest == [] || rest[0] == '_'
    ensures SecondToken(first + "_" + token + rest) == Some(token)
  {
    var filename := first + "_" + token + rest;
    assert filename == first + ['_'] + (token + rest);
    SplitAfterPiece(first, '_', token + rest);
    if rest == [] {
      assert token + rest == token;
      SplitWithoutSeparator(token, '_');
    } else {
      assert token + rest == token + ['_'] + rest[1..];
      SplitAfterPiece(token, '_', rest[1..]);
    }
  }

  /** The form name of `<first>_<token><rest>`: the token, or the module's
      header form when the token is `header`. */
  lemma {:induction false} FormNameOfFilename(moduleName: string, first: string, token: string, rest: string)
    requires '_' !in first && '_' !in token
    requires rest == [] || rest[0] == '_'
    ensures FormNameOf(moduleName, first + "_" + token + rest) ==
      Success(if token == HeaderToken then Lower(moduleName) + "_header" else token)
  {
    SecondTokenOf(first, token, rest);
  }

  /** `ErrorCheckKey.create_from_key`. */
  function CreateFromKey(key: string): (r: Result<ErrorCheckKey, KeyError>)
    ensures Split(key, '/')[0] != TopLevel <==> r == Failure(NotCsvTopLevel)
    ensures Split(key, '/')[0] == TopLevel && |Split(key, '/')| !in {4, 5} <==>
      r == Failure(MalformedKey(key))
    ensures Split(key, '/')[0] == TopLevel && |Split(key, '/')| == 5 && '_' !in Split(key, '/')[4] <==>
      r.Failure? && r.error.NoFormNameToken?
    ensures r.Failure? && r.error.NoFormNameToken? ==>
      |Split(key, '/')| == 5 && r.error.filename == Split(key, '/')[4]
    ensures Split(key, '/')[0] == TopLevel && |Split(key, '/')| == 4 && Split(key, '/')[1] != EnrollModule <==>
      r.Failure? && r.error.NotEnrollModule?
    ensures r.Failure? && r.error.NotEnrollModule? ==> r.error.moduleName == Split(key, '/')[1]
    ensures r.Success? ==> r.value.fullPath == key && r.value.csv == TopLevel
    ensures r.Success? ==>
      '/' !in r.value.moduleName && '/' !in r.value.formVer && '/' !in r.value.filename
    ensures r.Success? && r.value.packet.Some? ==>
      '/' !in r.value.packet.value &&
      key == TopLevel + "/" + r.value.moduleName + "/" + r.value.formVer + "/" +
             r.value.packet.value + "/" + r.value.filename &&
      FormNameOf(r.value.moduleName, r.value.filename) == Success(r.value.formName)
    ensures r.Success? && r.value.packet.None? ==>
      r.value.moduleName == EnrollModule && r.value.formName == EnrollFormName &&
      key == TopLevel + "/" + EnrollModule + "/" + r.value.formVer + "/" + r.value.filename
  {
    var parts := Split(key, '/');
    if parts[0] != TopLevel then Failure(NotCsvTopLevel)
    else if |parts| == 5 then
      match FormNameOf(parts[1], parts[4])
      case Failure(e) => Failure(e)
      case Success(formName) =>
        JoinFive(parts);
        Success(ErrorCheckKey(key, parts[0], parts[1], parts[2], parts[4], formName, Some(parts[3])))
    else if |parts| == 4 then
      if parts[1] != EnrollModule then Failure(NotEnrollModule(parts[1]))
      else
        JoinFour(parts);
        Success(ErrorCheckKey(key, parts[0], parts[1], parts[2], parts[3], EnrollFormName, None))
    else Failure(MalformedKey(key))
  }

  lemma {:induction false} JoinFive(parts: seq<string>)
    requires |parts| == 5
    ensures Join(parts, '/') == parts[0] + "/" + parts[1] + "/" + parts[2] + "/" + parts[3] + "/" + parts[4]
  {
    var tail := parts[1..][1..][1..];
    assert tail == parts[3..];
    assert Join(tail, '/') == parts[3] + "/" + parts[4] by {
      assert tail[1..] == [parts[4]];
    }
    assert Join(parts[1..][1..], '/') == parts[2] + "/" + Join(tail, '/');
    assert Join(parts[1..], '/') == parts[1] + "/" + Join(parts[1..][1..], '/');
  }

  lemma {:induction false} JoinFour(parts: seq<string>)
    requires |parts| == 4
    ensures Join(parts, '/') == parts[0] + "/" + parts[1] + "/" + parts[2] + "/" + parts[3]
  {
    var tail := parts[1..][1..];
    assert Join(tail, '/') == parts[2] + "/" + parts[3] by {
      assert tail[1..] == [parts[3]];
    }
    assert Join(parts[1..], '/') == parts[1] + "/" + Join(tail, '/');
  }

  /** Every five-segment key with `CSV` on top and a filename holding `_`
      parses, and each field is the literal segment. Together with
      `CreateFromKey`'s contract this characterises the accepted
      five-segment keys exactly. */
  lemma {:induction false} ParseFiveSegmentKey(moduleName: string, formVer: string, packet: string, filename: string)
    requires '/' !in moduleName && '/' !in formVer && '/' !in packet && '/' !in filename
    requires '_' in filename
    ensures var key := TopLevel + "/" + moduleName + "/" + formVer + "/" + packet + "/" + filename;
      CreateFromKey(key).Success? &&
      CreateFromKey(key).value ==
        ErrorCheckKey(key, TopLevel, moduleName, formVer, filename,
                      FormNameOf(moduleName, filename).value, Some(packet))
  {
    var parts := [TopLevel, moduleName, formVer, packet, filename];
    JoinFive(parts);
    SplitJoin(parts, '/');
  }

  /** Every four-segment key `CSV/ENROLL/<version>/<filename>` parses, with
      no packet and the enrollment form name. */
  lemma {:induction false} ParseEnrollKey(formVer: string, filename: string)
    requires '/' !in formVer && '/' !in filename
    ensures var key := TopLevel + "/" + EnrollModule + "/" + formVer + "/" + filename;
      CreateFromKey(key) ==
        Success(ErrorCheckKey(key, TopLevel, EnrollModule, formVer, filename, EnrollFormName, None))
  {
    var parts := [TopLevel, EnrollModule, formVer, filename];
    JoinFour(parts);
    SplitJoin(parts, '/');
  }

  /** A four-segment key under any module but `ENROLL` fails the
      enrollment assertion rather than raising `ValueError`. */
  lemma {:induction false} FourSegmentsNeedEnroll(moduleName: string, formVer: string, filename: string)
    requires '/' !in moduleName && '/' !in formVer && '/' !in filename
    requires moduleName != EnrollModule
    ensures CreateFromKey(TopLevel + "/" + moduleName + "/" + formVer + "/" + filename) ==
      Failure(NotEnrollModule(moduleName))
    ensures !CreateFromKey(TopLevel + "/" + moduleName + "/" + formVer + "/" + filename).error.IsValueError()
  {
    var parts := [TopLevel, moduleName, formVer, filename];
    JoinFour(parts);
    SplitJoin(parts, '/');
  }

  /** `get_visit_type`: no visit type without a (non-empty) packet; `I4`
      is the `i4vp` visit; packets starting with `F` are follow-up visits;
      every other packet is an initial visit. */
  function VisitType(key: ErrorCheckKey): (v: Option<string>)
    ensures v.None? <==> key.packet.None? || key.packet.value == ""
    ensures v == Some("i4vp") <==> key.packet == Some("I4")
    ensures v == Some("fvp") <==> key.packet.Some? && StartsWith(key.packet.value, "F")
    ensures v == Some("ivp") <==>
      key.packet.Some? && key.packet.value != "" && key.packet.value != "I4" &&
      !StartsWith(key.packet.value, "F")
  {
    if key.packet.None? || key.packet.value == "" then None
    else if key.packet.value == "I4" then
      assert !StartsWith(key.packet.value, "F") by {
        assert key.packet.value[0] == 'I';
        assert "F"[0] == 'F';
      }
      Some("i4vp")
    else if StartsWith(key.packet.value, "F") then Some("fvp")
    else Some("ivp")
  }

  /** The malformed key of the unit tests: three segments under `CSV`. */
  lemma {:induction false} ThreeSegmentKeyIsMalformed()
    ensures CreateFromKey("CSV/badmodule/test.csv") == Failure(MalformedKey("CSV/badmodule/test.csv"))
  {
    var key := "CSV/badmodule/test.csv";
    var parts := ["CSV", "badmodule", "test.csv"];
    assert Join(parts[1..][1..], '/') == "test.csv";
    assert Join(parts, '/') == key;
    SplitJoin(parts, '/');
    assert Split(key, '/')[0] == TopLevel && |Split(key, '/')| == 3;
  }

  /** The "Cannot parse" error is a `ValueError` whose message names the
      offending key. */
  lemma {:induction false} MalformedKeyNamesKey(key: string)
    ensures MalformedKey(key).IsValueError()
    ensures Contains(MalformedKey(key).Message(), key)
  {
    var before := "Cannot parse ErrorCheckKey components from ";
    var message := MalformedKey(key).Message();
    assert message[|before|..|before| + |key|] == key;
    assert OccursAt(message, key, |before|);
    ContainsIffOccurs(message, key);
  }

  /** Any key whose first segment is not `CSV` is rejected first, whatever
      follows (the unit tests use a `JSON/...` key). */
  lemma {:induction false} OtherTopLevelRejected(top: string, rest: string)
    requires '/' !in top && top != TopLevel
    ensures CreateFromKey(top + "/" + rest) == Failure(NotCsvTopLevel)
    ensures CreateFromKey(top + "/" + rest).error.IsValueError()
    ensures CreateFromKey(top + "/" + rest).error.Message() == "Expected CSV at top level of S3 key"
  {
    assert top + "/" + rest == top + ['/'] + rest;
    SplitAfterPiece(top, '/', rest);
  }

  /** The visit type of a five-segment key follows its packet segment, as
      the unit tests check for `F`, `FF`, `FL` (follow-up), `I`, `IF`, `IL`
      (initial) and `I4`. */
  lemma {:induction false} VisitTypeOfPacket(moduleName: string, formVer: string, packet: string, filename: string)
    requires '/' !in moduleName && '/' !in formVer && '/' !in packet && '/' !in filename
    requires '_' in filename && packet != ""
    ensures var key := TopLevel + "/" + moduleName + "/" + formVer + "/" + packet + "/" + filename;
      && CreateFromKey(key).Success?
      && VisitType(CreateFromKey(key).value) ==
           Some(if packet == "I4" then "i4vp" else if packet[0] == 'F' then "fvp" else "ivp")
  {
    ParseFiveSegmentKey(moduleName, formVer, packet, filename);
    assert StartsWith(packet, "F") <==> packet[0] == 'F';
  }

  /** An enrollment key has no visit type. */
  lemma {:induction false} EnrollKeyHasNoVisitType(formVer: string, filename: string)
    requires '/' !in formVer && '/' !in filename
    ensures var key := TopLevel + "/" + EnrollModule + "/" + formVer + "/" + filename;
      CreateFromKey(key).Success? && VisitType(CreateFromKey(key).value).None?
  {
    ParseEnrollKey(formVer, filename);
  }
}
