/**
 * The driver that assigns an IoT API change class to every issue with a
 * language-model oracle: the closed label enumeration, the prompt placeholder
 * substitution, the two-attempt retry, the skip-if-classified loop that updates
 * the loaded issues in place, and the mapping of the issues to the saved document.
 */
module TaxonomyClassifier {
  import opened Wrappers
  import opened Text

  // ---------------------------------------------------------------------------
  // The label enumeration
  // ---------------------------------------------------------------------------

  datatype IoTApiChange =
    | ModifyDataPayloadFormat
    | ModifyDataType
    | ModifyStructureOfPayload
    | ModifyEncodingOfPayload
    | ModifyPayloadCompression
    | ModifyConsumedDataPayload
    | ModifyProducedDataPayload
    | ModifyProtocol
    | ModifyProtocolVersion
    | AddProtocolFeature
    | AddEndpoint
    | RemoveEndpoint
    | RenameEndpoint
    | RelocateEndpoint
    | SplitEndpoint
    | CombineEndpoint
    | ModifyAccessMethodToEndpoint
    | ModifyAuthenticationMethod
    | ModifyAuthorizationMethod
    | ModifyEncryption
    | ModifyAccessControlPolicy
    | AddParameter
    | RemoveParameter
    | RenameParameter
    | ModifyParameterUpperBound
    | ModifyParameterLowerBound
    | ModifyDefaultValueOfParameter
    | ReorderParameter
    | Unknown

  /** The string value of each enumeration member. */
  function Label(c: IoTApiChange): (s: string)
    ensures |s| > 0
    ensures s == "Unknown" <==> c == Unknown
  {
    match c
    case ModifyDataPayloadFormat => "Modify Data Payload Format"
    case ModifyDataType => "Modify Data Type"
    case ModifyStructureOfPayload => "Modify Structure of Payload"
    case ModifyEncodingOfPayload => "Modify Encoding of Payload"
    case ModifyPayloadCompression => "Modify Payload Compression"
    case ModifyConsumedDataPayload => "Modify Consumed Data Payload"
    case ModifyProducedDataPayload => "Modify Produced Data Payload"
    case ModifyProtocol => "Modify Protocol"
    case ModifyProtocolVersion => "Modify Protocol Version"
    case AddProtocolFeature => "Add Protocol Feature"
    case AddEndpoint => "Add Endpoint"
    case RemoveEndpoint => "Remove Endpoint"
    case RenameEndpoint => "Rename Endpoint"
    case RelocateEndpoint => "Relocate Endpoint"
    case SplitEndpoint => "Split Endpoint"
    case CombineEndpoint => "Combine Endpoint"
    case ModifyAccessMethodToEndpoint => "Modify Access Method to Endpoint"
    case ModifyAuthenticationMethod => "Modify Authentication Method"
    case ModifyAuthorizationMethod => "Modify Authorization Method"
    case ModifyEncryption => "Modify Encryption"
    case ModifyAccessControlPolicy => "Modify Access Control Policy"
    case AddParameter => "Add Parameter"
    case RemoveParameter => "Remove Parameter"
    case RenameParameter => "Rename Parameter"
    case ModifyParameterUpperBound => "Modify Parameter Upper Bound"
    case ModifyParameterLowerBound => "Modify Parameter Lower Bound"
    case ModifyDefaultValueOfParameter => "Modify Default Value of Parameter"
    case ReorderParameter => "Reorder Parameter"
    case Unknown => "Unknown"
  }

  /** The label list handed to the structured-output schema. */
  const IOT_API_CHANGES_LIST: seq<IoTApiChange> := [
    ModifyDataPayloadFormat, ModifyDataType, ModifyStructureOfPayload,
    ModifyEncodingOfPayload, ModifyPayloadCompression, ModifyConsumedDataPayload,
    ModifyProducedDataPayload, ModifyProtocol, ModifyProtocolVersion,
    AddProtocolFeature, AddEndpoint, RemoveEndpoint, RenameEndpoint,
    RelocateEndpoint, SplitEndpoint, CombineEndpoint, ModifyAccessMethodToEndpoint,
    ModifyAuthenticationMethod, ModifyAuthorizationMethod, ModifyEncryption,
    ModifyAccessControlPolicy, AddParameter, RemoveParameter, RenameParameter,
    ModifyParameterUpperBound, ModifyParameterLowerBound,
    ModifyDefaultValueOfParameter, ReorderParameter, Unknown
  ]

  /** Position of a member in declaration order. */
  function Ordinal(c: IoTApiChange): nat {
    match c
    case ModifyDataPayloadFormat => 0
    case ModifyDataType => 1
    case ModifyStructureOfPayload => 2
    case ModifyEncodingOfPayload => 3
    case ModifyPayloadCompression => 4
    case ModifyConsumedDataPayload => 5
    case ModifyProducedDataPayload => 6
    case ModifyProtocol => 7
    case ModifyProtocolVersion => 8
    case AddProtocolFeature => 9
    case AddEndpoint => 10
    case RemoveEndpoint => 11
    case RenameEndpoint => 12
    case RelocateEndpoint => 13
    case SplitEndpoint => 14
    case CombineEndpoint => 15
    case ModifyAccessMethodToEndpoint => 16
    case ModifyAuthenticationMethod => 17
    case ModifyAuthorizationMethod => 18
    case ModifyEncryption => 19
    case ModifyAccessControlPolicy => 20
    case AddParameter => 21
    case RemoveParameter => 22
    case RenameParameter => 23
    case ModifyParameterUpperBound => 24
    case ModifyParameterLowerBound => 25
    case ModifyDefaultValueOfParameter => 26
    case ReorderParameter => 27
    case Unknown => 28
  }

  /** Every member sits in the list at its declaration position. */
  lemma ListHoldsEveryMember(c: IoTApiChange)
    ensures Ordinal(c) < |IOT_API_CHANGES_LIST| && IOT_API_CHANGES_LIST[Ordinal(c)] == c
  {
    match c
    case ModifyDataPayloadFormat =>
    case ModifyDataType =>
    case ModifyStructureOfPayload =>
    case ModifyEncodingOfPayload =>
    case ModifyPayloadCompression =>
    case ModifyConsumedDataPayload =>
    case ModifyProducedDataPayload =>
    case ModifyProtocol =>
    case ModifyProtocolVersion =>
    case AddProtocolFeature =>
    case AddEndpoint =>
    case RemoveEndpoint =>
    case RenameEndpoint =>
    case RelocateEndpoint =>
    case SplitEndpoint =>
    case CombineEndpoint =>
    case ModifyAccessMethodToEndpoint =>
    case ModifyAuthenticationMethod =>
    case ModifyAuthorizationMethod =>
    case ModifyEncryption =>
    case ModifyAccessControlPolicy =>
    case AddParameter =>
    case RemoveParameter =>
    case RenameParameter =>
    case ModifyParameterUpperBound =>
    case ModifyParameterLowerBound =>
    case ModifyDefaultValueOfParameter =>
    case ReorderParameter =>
    case Unknown =>
  }

  /** The list holds 29 members and ends with `Unknown`; its i-th entry is the member declared i-th. */
  lemma ListIsDeclarationOrder()
    ensures |IOT_API_CHANGES_LIST| == 29
    ensures IOT_API_CHANGES_LIST[|IOT_API_CHANGES_LIST| - 1] == Unknown
    ensures forall i :: 0 <= i < |IOT_API_CHANGES_LIST| ==> Ordinal(IOT_API_CHANGES_LIST[i]) == i
  {
    forall i | 0 <= i < |IOT_API_CHANGES_LIST|
      ensures Ordinal(IOT_API_CHANGES_LIST[i]) == i
    {
      ListOrdinal(i);
    }
  }

  lemma ListOrdinal(i: nat)
    requires i < |IOT_API_CHANGES_LIST|
    ensures Ordinal(IOT_API_CHANGES_LIST[i]) == i
  {
    if i < 10 {
      ListOrdinalLow(i);
    } else if i < 20 {
      ListOrdinalMid(i);
    } else {
      ListOrdinalHigh(i);
    }
  }

  lemma ListOrdinalLow(i: nat)
    requires 0 <= i < 10
    ensures Ordinal(IOT_API_CHANGES_LIST[i]) == i
  {
    var l := IOT_API_CHANGES_LIST;
    if i == 0 {
      assert l[0] == ModifyDataPayloadFormat;
    } else if i == 1 {
      assert l[1] == ModifyDataType;
    } else if i == 2 {
      assert l[2] == ModifyStructureOfPayload;
    } else if i == 3 {
      assert l[3] == ModifyEncodingOfPayload;
    } else if i == 4 {
      assert l[4] == ModifyPayloadCompression;
    } else if i == 5 {
      assert l[5] == ModifyConsumedDataPayload;
    } else if i == 6 {
      assert l[6] == ModifyProducedDataPayload;
    } else if i == 7 {
      assert l[7] == ModifyProtocol;
    } else if i == 8 {
      assert l[8] == ModifyProtocolVersion;
    } else if i == 9 {
      assert l[9] == AddProtocolFeature;
    }
  }

  lemma ListOrdinalMid(i: nat)
    requires 10 <= i < 20
    ensures Ordinal(IOT_API_CHANGES_LIST[i]) == i
  {
    var l := IOT_API_CHANGES_LIST;
    if i == 10 {
      assert l[10] == AddEndpoint;
    } else if i == 11 {
      assert l[11] == RemoveEndpoint;
    } else if i == 12 {
      assert l[12] == RenameEndpoint;
    } else if i == 13 {
      assert l[13] == RelocateEndpoint;
    } else if i == 14 {
      assert l[14] == SplitEndpoint;
    } else if i == 15 {
      assert l[15] == CombineEndpoint;
    } else if i == 16 {
      assert l[16] == ModifyAccessMethodToEndpoint;
    } else if i == 17 {
      assert l[17] == ModifyAuthenticationMethod;
    } else if i == 18 {
      assert l[18] == ModifyAuthorizationMethod;
    } else if i == 19 {
      assert l[19] == ModifyEncryption;
    }
  }

  lemma ListOrdinalHigh(i: nat)
    requires 20 <= i < 29
    ensures Ordinal(IOT_API_CHANGES_LIST[i]) == i
  {
    var l := IOT_API_CHANGES_LIST;
    if i == 20 {
      assert l[20] == ModifyAccessControlPolicy;
    } else if i == 21 {
      assert l[21] == AddParameter;
    } else if i == 22 {
      assert l[22] == RemoveParameter;
    } else if i == 23 {
      assert l[23] == RenameParameter;
    } else if i == 24 {
      assert l[24] == ModifyParameterUpperBound;
    } else if i == 25 {
      assert l[25] == ModifyParameterLowerBound;
    } else if i == 26 {
      assert l[26] == ModifyDefaultValueOfParameter;
    } else if i == 27 {
      assert l[27] == ReorderParameter;
    } else if i == 28 {
      assert l[28] == Unknown;
    }
  }


  /** Every member occurs in the list exactly once. */
  lemma ListHoldsEachMemberOnce(c: IoTApiChange)
    ensures c in IOT_API_CHANGES_LIST
    ensures forall i :: 0 <= i < |IOT_API_CHANGES_LIST| && IOT_API_CHANGES_LIST[i] == c ==> i == Ordinal(c)
  {
    ListHoldsEveryMember(c);
    ListIsDeclarationOrder();
  }

  /** A character of `s`, or a space past its end. */
  function CharAt(s: string, i: nat): char {
    if i < |s| then s[i] else ' '
  }

  /** Four cheap observations of a string that already tell the 29 labels apart. */
  function Fingerprint(s: string): (int, char, char, char) {
    (|s|, CharAt(s, 2), CharAt(s, 7), CharAt(s, 18))
  }

  /** The member whose label has the given fingerprint (`Unknown` for any other). */
  function MemberWithFingerprint(f: (int, char, char, char)): IoTApiChange {
    var (n, c2, c7, c18) := f;
    match n
    case 12 => if (c2, c7, c18) == ('d', 'p', ' ') then AddEndpoint else Unknown
    case 13 => if (c2, c7, c18) == ('d', 'a', ' ') then AddParameter else Unknown
    case 14 => if (c2, c7, c18) == ('l', 'n', ' ') then SplitEndpoint else Unknown
    case 15 =>
      if (c2, c7, c18) == ('d', 'P', ' ') then ModifyProtocol
      else if (c2, c7, c18) == ('m', 'E', ' ') then RemoveEndpoint
      else if (c2, c7, c18) == ('n', 'E', ' ') then RenameEndpoint
      else Unknown
    case 16 =>
      if (c2, c7, c18) == ('d', 'D', ' ') then ModifyDataType
      else if (c2, c7, c18) == ('m', ' ', ' ') then CombineEndpoint
      else if (c2, c7, c18) == ('m', 'P', ' ') then RemoveParameter
      else if (c2, c7, c18) == ('n', 'P', ' ') then RenameParameter
      else Unknown
    case 17 =>
      if (c2, c7, c18) == ('l', 'e', ' ') then RelocateEndpoint
      else if (c2, c7, c18) == ('d', 'E', ' ') then ModifyEncryption
      else if (c2, c7, c18) == ('o', ' ', ' ') then ReorderParameter
      else Unknown
    case 20 => if (c2, c7, c18) == ('d', 't', 'r') then AddProtocolFeature else Unknown
    case 23 => if (c2, c7, c18) == ('d', 'P', 'r') then ModifyProtocolVersion else Unknown
    case 26 =>
      if (c2, c7, c18) == ('d', 'D', 'd') then ModifyDataPayloadFormat
      else if (c2, c7, c18) == ('d', 'E', ' ') then ModifyEncodingOfPayload
      else if (c2, c7, c18) == ('d', 'P', 'p') then ModifyPayloadCompression
      else Unknown
    case 27 =>
      if (c2, c7, c18) == ('d', 'S', 'f') then ModifyStructureOfPayload
      else if (c2, c7, c18) == ('d', 'A', 'o') then ModifyAuthorizationMethod
      else Unknown
    case 28 =>
      if (c2, c7, c18) == ('d', 'C', 't') then ModifyConsumedDataPayload
      else if (c2, c7, c18) == ('d', 'P', 't') then ModifyProducedDataPayload
      else if (c2, c7, c18) == ('d', 'A', 'i') then ModifyAuthenticationMethod
      else if (c2, c7, c18) == ('d', 'A', 'r') then ModifyAccessControlPolicy
      else if (c2, c7, c18) == ('d', 'P', 'p') then ModifyParameterUpperBound
      else if (c2, c7, c18) == ('d', 'P', 'o') then ModifyParameterLowerBound
      else Unknown
    case 32 => if (c2, c7, c18) == ('d', 'A', 'o') then ModifyAccessMethodToEndpoint else Unknown
    case 33 => if (c2, c7, c18) == ('d', 'D', 'u') then ModifyDefaultValueOfParameter else Unknown
    case _ => Unknown
  }

  /** The fingerprint of each label identifies its member. */
  lemma FingerprintIdentifies(c: IoTApiChange)
    ensures MemberWithFingerprint(Fingerprint(Label(c))) == c
  {
    if Ordinal(c) < 3 {
      FingerprintGroup0(c);
    } else if Ordinal(c) < 6 {
      FingerprintGroup1(c);
    } else if Ordinal(c) < 9 {
      FingerprintGroup2(c);
    } else if Ordinal(c) < 12 {
      FingerprintGroup3(c);
    } else if Ordinal(c) < 15 {
      FingerprintGroup4(c);
    } else if Ordinal(c) < 18 {
      FingerprintGroup5(c);
    } else if Ordinal(c) < 21 {
      FingerprintGroup6(c);
    } else if Ordinal(c) < 24 {
      FingerprintGroup7(c);
    } else if Ordinal(c) < 27 {
      FingerprintGroup8(c);
    } else {
      FingerprintGroup9(c);
    }
  }

  lemma FingerprintGroup0(c: IoTApiChange)
    requires Ordinal(c) < 3
    ensures MemberWithFingerprint(Fingerprint(Label(c))) == c
  {
    match c
    case ModifyDataPayloadFormat =>
      assert Fingerprint(Label(ModifyDataPayloadFormat)) == (26, 'd', 'D', 'd');
      assert MemberWithFingerprint((26, 'd', 'D', 'd')) == ModifyDataPayloadFormat;
    case ModifyDataType =>
      assert Fingerprint(Label(ModifyDataType)) == (16, 'd', 'D', ' ');
      assert MemberWithFingerprint((16, 'd', 'D', ' ')) == ModifyDataType;
    case ModifyStructureOfPayload =>
      assert Fingerprint(Label(ModifyStructureOfPayload)) == (27, 'd', 'S', 'f');
      assert MemberWithFingerprint((27, 'd', 'S', 'f')) == ModifyStructureOfPayload;
    case _ =>
  }

  lemma FingerprintGroup1(c: IoTApiChange)
    requires 3 <= Ordinal(c) < 6
    ensures MemberWithFingerprint(Fingerprint(Label(c))) == c
  {
    match c
    case ModifyEncodingOfPayload =>
      assert Fingerprint(Label(ModifyEncodingOfPayload)) == (26, 'd', 'E', ' ');
      assert MemberWithFingerprint((26, 'd', 'E', ' ')) == ModifyEncodingOfPayload;
    case ModifyPayloadCompression =>
      assert Fingerprint(Label(ModifyPayloadCompression)) == (26, 'd', 'P', 'p');
      assert MemberWithFingerprint((26, 'd', 'P', 'p')) == ModifyPayloadCompression;
    case ModifyConsumedDataPayload =>
      assert Fingerprint(Label(ModifyConsumedDataPayload)) == (28, 'd', 'C', 't');
      assert MemberWithFingerprint((28, 'd', 'C', 't')) == ModifyConsumedDataPayload;
    case _ =>
  }

  lemma FingerprintGroup2(c: IoTApiChange)
    requires 6 <= Ordinal(c) < 9
    ensures MemberWithFingerprint(Fingerprint(Label(c))) == c
  {
    match c
    case ModifyProducedDataPayload =>
      assert Fingerprint(Label(ModifyProducedDataPayload)) == (28, 'd', 'P', 't');
      assert MemberWithFingerprint((28, 'd', 'P', 't')) == ModifyProducedDataPayload;
    case ModifyProtocol =>
      assert Fingerprint(Label(ModifyProtocol)) == (15, 'd', 'P', ' ');
      assert MemberWithFingerprint((15, 'd', 'P', ' ')) == ModifyProtocol;
    case ModifyProtocolVersion =>
      assert Fingerprint(Label(ModifyProtocolVersion)) == (23, 'd', 'P', 'r');
      assert MemberWithFingerprint((23, 'd', 'P', 'r')) == ModifyProtocolVersion;
    case _ =>
  }

  lemma FingerprintGroup3(c: IoTApiChange)
    requires 9 <= Ordinal(c) < 12
    ensures MemberWithFingerprint(Fingerprint(Label(c))) == c
  {
    match c
    case AddProtocolFeature =>
      assert Fingerprint(Label(AddProtocolFeature)) == (20, 'd', 't', 'r');
      assert MemberWithFingerprint((20, 'd', 't', 'r')) == AddProtocolFeature;
    case AddEndpoint =>
      assert Fingerprint(Label(AddEndpoint)) == (12, 'd', 'p', ' ');
      assert MemberWithFingerprint((12, 'd', 'p', ' ')) == AddEndpoint;
    case RemoveEndpoint =>
      assert Fingerprint(Label(RemoveEndpoint)) == (15, 'm', 'E', ' ');
      assert MemberWithFingerprint((15, 'm', 'E', ' ')) == RemoveEndpoint;
    case _ =>
  }

  lemma FingerprintGroup4(c: IoTApiChange)
    requires 12 <= Ordinal(c) < 15
    ensures MemberWithFingerprint(Fingerprint(Label(c))) == c
  {
    match c
    case RenameEndpoint =>
      assert Fingerprint(Label(RenameEndpoint)) == (15, 'n', 'E', ' ');
      assert MemberWithFingerprint((15, 'n', 'E', ' ')) == RenameEndpoint;
    case RelocateEndpoint =>
      assert Fingerprint(Label(RelocateEndpoint)) == (17, 'l', 'e', ' ');
      assert MemberWithFingerprint((17, 'l', 'e', ' ')) == RelocateEndpoint;
    case SplitEndpoint =>
      assert Fingerprint(Label(SplitEndpoint)) == (14, 'l', 'n', ' ');
      assert MemberWithFingerprint((14, 'l', 'n', ' ')) == SplitEndpoint;
    case _ =>
  }

  lemma FingerprintGroup5(c: IoTApiChange)
    requires 15 <= Ordinal(c) < 18
    ensures MemberWithFingerprint(Fingerprint(Label(c))) == c
  {
    match c
    case CombineEndpoint =>
      assert Fingerprint(Label(CombineEndpoint)) == (16, 'm', ' ', ' ');
      assert MemberWithFingerprint((16, 'm', ' ', ' ')) == CombineEndpoint;
    case ModifyAccessMethodToEndpoint =>
      assert Fingerprint(Label(ModifyAccessMethodToEndpoint)) == (32, 'd', 'A', 'o');
      assert MemberWithFingerprint((32, 'd', 'A', 'o')) == ModifyAccessMethodToEndpoint;
    case ModifyAuthenticationMethod =>
      assert Fingerprint(Label(ModifyAuthenticationMethod)) == (28, 'd', 'A', 'i');
      assert MemberWithFingerprint((28, 'd', 'A', 'i')) == ModifyAuthenticationMethod;
    case _ =>
  }

  lemma FingerprintGroup6(c: IoTApiChange)
    requires 18 <= Ordinal(c) < 21
    ensures MemberWithFingerprint(Fingerprint(Label(c))) == c
  {
    match c
    case ModifyAuthorizationMethod =>
      assert Fingerprint(Label(ModifyAuthorizationMethod)) == (27, 'd', 'A', 'o');
      assert MemberWithFingerprint((27, 'd', 'A', 'o')) == ModifyAuthorizationMethod;
    case ModifyEncryption =>
      assert Fingerprint(Label(ModifyEncryption)) == (17, 'd', 'E', ' ');
      assert MemberWithFingerprint((17, 'd', 'E', ' ')) == ModifyEncryption;
    case ModifyAccessControlPolicy =>
      assert Fingerprint(Label(ModifyAccessControlPolicy)) == (28, 'd', 'A', 'r');
      assert MemberWithFingerprint((28, 'd', 'A', 'r')) == ModifyAccessControlPolicy;
    case _ =>
  }

  lemma FingerprintGroup7(c: IoTApiChange)
    requires 21 <= Ordinal(c) < 24
    ensures MemberWithFingerprint(Fingerprint(Label(c))) == c
  {
    match c
    case AddParameter =>
      assert Fingerprint(Label(AddParameter)) == (13, 'd', 'a', ' ');
      assert MemberWithFingerprint((13, 'd', 'a', ' ')) == AddParameter;
    case RemoveParameter =>
      assert Fingerprint(Label(RemoveParameter)) == (16, 'm', 'P', ' ');
      assert MemberWithFingerprint((16, 'm', 'P', ' ')) == RemoveParameter;
    case RenameParameter =>
      assert Fingerprint(Label(RenameParameter)) == (16, 'n', 'P', ' ');
      assert MemberWithFingerprint((16, 'n', 'P', ' ')) == RenameParameter;
    case _ =>
  }

  lemma FingerprintGroup8(c: IoTApiChange)
    requires 24 <= Ordinal(c) < 27
    ensures MemberWithFingerprint(Fingerprint(Label(c))) == c
  {
    match c
    case ModifyParameterUpperBound =>
      assert Fingerprint(Label(ModifyParameterUpperBound)) == (28, 'd', 'P', 'p');
      assert MemberWithFingerprint((28, 'd', 'P', 'p')) == ModifyParameterUpperBound;
    case ModifyParameterLowerBound =>
      assert Fingerprint(Label(ModifyParameterLowerBound)) == (28, 'd', 'P', 'o');
      assert MemberWithFingerprint((28, 'd', 'P', 'o')) == ModifyParameterLowerBound;
    case ModifyDefaultValueOfParameter =>
      assert Fingerprint(Label(ModifyDefaultValueOfParameter)) == (33, 'd', 'D', 'u');
      assert MemberWithFingerprint((33, 'd', 'D', 'u')) == ModifyDefaultValueOfParameter;
    case _ =>
  }

  lemma FingerprintGroup9(c: IoTApiChange)
    requires 27 <= Ordinal(c) < 29
    ensures MemberWithFingerprint(Fingerprint(Label(c))) == c
  {
    match c
    case ReorderParameter =>
      assert Fingerprint(Label(ReorderParameter)) == (17, 'o', ' ', ' ');
      assert MemberWithFingerprint((17, 'o', ' ', ' ')) == ReorderParameter;
    case Unknown =>
      assert Fingerprint(Label(Unknown)) == (7, 'k', ' ', ' ');
      assert MemberWithFingerprint((7, 'k', ' ', ' ')) == Unknown;
    case _ =>
  }


  /** Distinct members carry distinct label strings. */
  lemma LabelsDistinct(c: IoTApiChange, d: IoTApiChange)
    ensures Label(c) == Label(d) <==> c == d
  {
    FingerprintIdentifies(c);
    FingerprintIdentifies(d);
  }

  // ---------------------------------------------------------------------------
  // Classifications and issues
  // ---------------------------------------------------------------------------

  /** One classification; `classType` is a plain string that nothing checks against the labels. */
  datatype Classification = Classification(classType: string, confidence: real, explanation: string)

  /** What `api_taxonomy_class` holds: a single classification, as the loaded issues carry
      it, or the oracle's list of classifications, as the loop stores it. */
  datatype TaxonomyClass =
    | Single(classification: Classification)
    | Listed(classes: seq<Classification>)

  datatype TaxComment = TaxComment(id: int, body: string)

  datatype TaxIssue = TaxIssue(
    number: int,
    title: Option<string>,
    body: Option<string>,
    comments: seq<TaxComment>,
    apiTaxonomyClass: Option<TaxonomyClass>)

  /** The oracle: a prompt and the number of the attempt that sends it (0 for the attempt with
      every comment, 1 for the retry) in, a parsed list of classifications out, or `None` when
      the request or its parsing raises. The attempt number lets a repeated prompt be answered
      differently the second time. */
  type Oracle = (string, nat) -> Option<seq<Classification>>

  const SAVE_FALLBACK_EXPLANATION: string :=
    "The content discusses an issue with device detection in an integration but does not explicitly mention any API changes or modifications."

  /** What the save step writes for an issue that has no class. */
  const SAVE_FALLBACK: TaxonomyClass := Listed([Classification(Label(Unknown), 0.9, SAVE_FALLBACK_EXPLANATION)])

  // ---------------------------------------------------------------------------
  // Prompt substitution
  // ---------------------------------------------------------------------------

  const TITLE_SLOT: string := "{title}"
  const CONTENT_SLOT: string := "{content}"
  const COMMENTS_SLOT: string := "{comments}"

  /** The fixed text around the three placeholders of the user prompt. */
  const INTRO: string := "\n## Content to analyze:\n### Title: "
  const BODY_HEADING: string := "\n### Body:\n"
  const COMMENTS_HEADING: string := "\n### Comments:\n"
  const CLOSING: string := "\n\n"

  /** The user-prompt template, "\n## Content to analyze:\n### Title: {title}\n### Body:\n{content}\n### Comments:\n{comments}\n\n". */
  const CLASSIFICATION_PROMPT: string :=
    INTRO + TITLE_SLOT + BODY_HEADING + CONTENT_SLOT + COMMENTS_HEADING + COMMENTS_SLOT + CLOSING

  /** The prompt once body and title are in, before the comments (done once per issue). */
  function PromptWithContent(title: string, body: string): string {
    Replace(Replace(CLASSIFICATION_PROMPT, CONTENT_SLOT, body), TITLE_SLOT, title)
  }

  /** The prompt sent with the given comment text. */
  function InsertPrompt(title: string, body: string, commentText: string): string {
    Replace(PromptWithContent(title, body), COMMENTS_SLOT, commentText)
  }

  /** Replace-all distributes over four pieces when the last three start with a newline,
      which no placeholder holds. */
  lemma ReplaceFourPieces(a: string, b: string, c: string, d: string, pat: string, rep: string)
    requires |pat| > 0 && '\n' !in pat
    requires |b| > 0 && b[0] == '\n' && |c| > 0 && c[0] == '\n' && |d| > 0 && d[0] == '\n'
    ensures Replace(a + b + c + d, pat, rep)
         == Replace(a, pat, rep) + Replace(b, pat, rep) + Replace(c, pat, rep) + Replace(d, pat, rep)
  {
    ReplaceSplits(a + b + c, d, pat, rep);
    ReplaceSplits(a + b, c, pat, rep);
    ReplaceSplits(a, b, pat, rep);
  }

  /** Text with no `{` is left alone by every placeholder. */
  lemma NoBraceUnchanged(s: string, pat: string, rep: string)
    requires |pat| > 0 && pat[0] == '{' && '{' !in s
    ensures Replace(s, pat, rep) == s
  {
    ReplaceSkipsPrefix(s, "", pat, rep);
    assert s + "" == s;
  }

  /** A fixed heading followed by the pattern: the pattern is replaced. */
  lemma HeadingThenSlot(h: string, pat: string, rep: string)
    requires |pat| > 0 && pat[0] == '{' && '{' !in h
    ensures Replace(h + pat, pat, rep) == h + rep
  {
    ReplaceSkipsPrefix(h, pat, pat, rep);
    ReplaceHead("", pat, rep);
    assert pat + "" == pat;
    assert rep + "" == rep;
  }

  /** A fixed heading followed by some other text. */
  lemma HeadingThenText(h: string, s: string, pat: string, rep: string)
    requires |pat| > 0 && pat[0] == '{' && '{' !in h
    ensures Replace(h + s, pat, rep) == h + Replace(s, pat, rep)
  {
    ReplaceSkipsPrefix(h, s, pat, rep);
  }

  /** `{title}` and `{comments}` are left alone by the other placeholders. */
  lemma OtherSlotsUntouched(rep: string)
    ensures Replace(TITLE_SLOT, CONTENT_SLOT, rep) == TITLE_SLOT
    ensures Replace(COMMENTS_SLOT, CONTENT_SLOT, rep) == COMMENTS_SLOT
    ensures Replace(COMMENTS_SLOT, TITLE_SLOT, rep) == COMMENTS_SLOT
  {
    var rest := "comments}";
    assert COMMENTS_SLOT == "{" + rest;
    assert COMMENTS_SLOT[..|CONTENT_SLOT|] != CONTENT_SLOT by {
      assert COMMENTS_SLOT[..|CONTENT_SLOT|][3] != CONTENT_SLOT[3];
    }
    assert COMMENTS_SLOT[..|TITLE_SLOT|] != TITLE_SLOT by {
      assert COMMENTS_SLOT[..|TITLE_SLOT|][1] != TITLE_SLOT[1];
    }
    assert COMMENTS_SLOT[1..] == rest;
    NoBraceUnchanged(rest, CONTENT_SLOT, rep);
    NoBraceUnchanged(rest, TITLE_SLOT, rep);
  }

  /** One substitution over four pieces `h + x`, where the fixed headings `h` hold no `{`
      and the last three start with a newline: each `x` is substituted on its own. */
  lemma SubstitutePieces(h1: string, x1: string, h2: string, x2: string, h3: string, x3: string,
                         h4: string, pat: string, rep: string)
    requires '{' !in h1 && '{' !in h2 && '{' !in h3 && '{' !in h4
    requires |h2| > 0 && h2[0] == '\n' && |h3| > 0 && h3[0] == '\n' && |h4| > 0 && h4[0] == '\n'
    requires |pat| > 0 && pat[0] == '{' && '\n' !in pat
    ensures Replace((h1 + x1) + (h2 + x2) + (h3 + x3) + h4, pat, rep)
         == (h1 + Replace(x1, pat, rep)) + (h2 + Replace(x2, pat, rep)) + (h3 + Replace(x3, pat, rep)) + h4
  {
    ReplaceFourPieces(h1 + x1, h2 + x2, h3 + x3, h4, pat, rep);
    HeadingThenText(h1, x1, pat, rep);
    HeadingThenText(h2, x2, pat, rep);
    HeadingThenText(h3, x3, pat, rep);
    NoBraceUnchanged(h4, pat, rep);
  }

  /** Replacing a pattern that is the whole text gives the replacement. */
  lemma ReplaceWhole(pat: string, rep: string)
    requires |pat| > 0
    ensures Replace(pat, pat, rep) == rep
  {
    ReplaceHead("", pat, rep);
    assert pat + "" == pat;
    assert rep + "" == rep;
  }

  /** The shape of the template: fixed pieces without `{`, the last three starting with a
      newline, and slots that start with `{` and hold no newline. */
  predicate TemplateShaped(intro: string, tSlot: string, bodyHeading: string, cSlot: string,
                           commentsHeading: string, mSlot: string, closing: string)
  {
    && '{' !in intro && '{' !in bodyHeading && '{' !in commentsHeading && '{' !in closing
    && |bodyHeading| > 0 && bodyHeading[0] == '\n'
    && |commentsHeading| > 0 && commentsHeading[0] == '\n'
    && |closing| > 0 && closing[0] == '\n'
    && |tSlot| > 0 && tSlot[0] == '{' && '\n' !in tSlot
    && |cSlot| > 0 && cSlot[0] == '{' && '\n' !in cSlot
    && |mSlot| > 0 && mSlot[0] == '{' && '\n' !in mSlot
  }

  lemma FillContentSlot(intro: string, tSlot: string, bodyHeading: string, cSlot: string,
                        commentsHeading: string, mSlot: string, closing: string, body: string)
    requires TemplateShaped(intro, tSlot, bodyHeading, cSlot, commentsHeading, mSlot, closing)
    requires Replace(tSlot, cSlot, body) == tSlot && Replace(mSlot, cSlot, body) == mSlot
    ensures Replace(intro + tSlot + bodyHeading + cSlot + commentsHeading + mSlot + closing, cSlot, body)
         == (intro + tSlot) + (bodyHeading + body) + (commentsHeading + mSlot) + closing
  {
    assert intro + tSlot + bodyHeading + cSlot + commentsHeading + mSlot + closing
        == (intro + tSlot) + (bodyHeading + cSlot) + (commentsHeading + mSlot) + closing;
    SubstitutePieces(intro, tSlot, bodyHeading, cSlot, commentsHeading, mSlot, closing, cSlot, body);
    ReplaceWhole(cSlot, body);
  }

  lemma FillTitleSlot(intro: string, tSlot: string, bodyHeading: string, cSlot: string,
                      commentsHeading: string, mSlot: string, closing: string, title: string, body: string)
    requires TemplateShaped(intro, tSlot, bodyHeading, cSlot, commentsHeading, mSlot, closing)
    requires Replace(mSlot, tSlot, title) == mSlot
    ensures Replace((intro + tSlot) + (bodyHeading + body) + (commentsHeading + mSlot) + closing, tSlot, title)
         == (intro + title) + (bodyHeading + Replace(body, tSlot, title)) + (commentsHeading + mSlot) + closing
  {
    SubstitutePieces(intro, tSlot, bodyHeading, body, commentsHeading, mSlot, closing, tSlot, title);
    ReplaceWhole(tSlot, title);
  }

  lemma FillCommentsSlot(intro: string, tSlot: string, bodyHeading: string, cSlot: string,
                         commentsHeading: string, mSlot: string, closing: string,
                         title: string, filled: string, commentText: string)
    requires TemplateShaped(intro, tSlot, bodyHeading, cSlot, commentsHeading, mSlot, closing)
    ensures Replace((intro + title) + (bodyHeading + filled) + (commentsHeading + mSlot) + closing, mSlot, commentText)
         == intro + Replace(title, mSlot, commentText) + bodyHeading + Replace(filled, mSlot, commentText)
          + commentsHeading + commentText + closing
  {
    SubstitutePieces(intro, title, bodyHeading, filled, commentsHeading, mSlot, closing, mSlot, commentText);
    ReplaceWhole(mSlot, commentText);
  }

  /** The three substitutions over any template of that shape whose slots are not changed by
      the substitutions that precede their own. */
  lemma FillTemplate(intro: string, tSlot: string, bodyHeading: string, cSlot: string,
                     commentsHeading: string, mSlot: string, closing: string,
                     title: string, body: string, commentText: string)
    requires TemplateShaped(intro, tSlot, bodyHeading, cSlot, commentsHeading, mSlot, closing)
    requires Replace(tSlot, cSlot, body) == tSlot
    requires Replace(mSlot, cSlot, body) == mSlot && Replace(mSlot, tSlot, title) == mSlot
    ensures Replace(Replace(Replace(intro + tSlot + bodyHeading + cSlot + commentsHeading + mSlot + closing,
                                    cSlot, body), tSlot, title), mSlot, commentText)
         == intro + Replace(title, mSlot, commentText)
          + bodyHeading + Replace(Replace(body, tSlot, title), mSlot, commentText)
          + commentsHeading + commentText + closing
  {
    FillContentSlot(intro, tSlot, bodyHeading, cSlot, commentsHeading, mSlot, closing, body);
    FillTitleSlot(intro, tSlot, bodyHeading, cSlot, commentsHeading, mSlot, closing, title, body);
    FillCommentsSlot(intro, tSlot, bodyHeading, cSlot, commentsHeading, mSlot, closing,
                     title, Replace(body, tSlot, title), commentText);
  }

  /** The fixed pieces of the template satisfy the shape conditions of `FillTemplate`. */
  lemma TemplateShape()
    ensures TemplateShaped(INTRO, TITLE_SLOT, BODY_HEADING, CONTENT_SLOT, COMMENTS_HEADING, COMMENTS_SLOT, CLOSING)
  {
  }

  /** The prompt in closed form. The substitutions run in the order content, title, comments
      over the whole text, so a `{title}` or `{comments}` inside the body and a `{comments}`
      inside the title are filled in as well, while the comment text goes in verbatim. */
  lemma PromptClosedForm(title: string, body: string, commentText: string)
    ensures InsertPrompt(title, body, commentText)
         == INTRO + Replace(title, COMMENTS_SLOT, commentText)
          + BODY_HEADING + Replace(Replace(body, TITLE_SLOT, title), COMMENTS_SLOT, commentText)
          + COMMENTS_HEADING + commentText + CLOSING
  {
    TemplateShape();
    OtherSlotsUntouched(body);
    OtherSlotsUntouched(title);
    FillTemplate(INTRO, TITLE_SLOT, BODY_HEADING, CONTENT_SLOT, COMMENTS_HEADING, COMMENTS_SLOT, CLOSING,
                 title, body, commentText);
  }

  /** A body that is just `{title}` shows the title twice: placeholder text in the body is substituted. */
  lemma BodyPlaceholderIsFilled(title: string, commentText: string)
    ensures InsertPrompt(title, TITLE_SLOT, commentText)
         == INTRO + Replace(title, COMMENTS_SLOT, commentText)
          + BODY_HEADING + Replace(title, COMMENTS_SLOT, commentText)
          + COMMENTS_HEADING + commentText + CLOSING
  {
    PromptClosedForm(title, TITLE_SLOT, commentText);
    ReplaceHead("", TITLE_SLOT, title);
    assert TITLE_SLOT + "" == TITLE_SLOT;
    assert title + "" == title;
  }

  // ---------------------------------------------------------------------------
  // The two attempts
  // ---------------------------------------------------------------------------

  /** The prompt of the attempt that keeps the first `count` comments. */
  function AttemptPrompt(title: string, body: string, comments: seq<string>, count: nat): string
    requires count <= |comments|
  {
    InsertPrompt(title, body, Join(comments[..count], "\n"))
  }

  /** The prompts `analyze_content` sends: all comments first, and no comments only when
      the first attempt fails. */
  function AnalyzePrompts(title: string, body: string, comments: seq<string>, oracle: Oracle): seq<string> {
    var first := AttemptPrompt(title, body, comments, |comments|);
    if oracle(first, 0).Some? then [first] else [first, AttemptPrompt(title, body, comments, 0)]
  }

  /** The value `analyze_content` returns: the answer of the first attempt that parses, and
      `None` only when both attempts fail. */
  function Analyze(title: string, body: string, comments: seq<string>, oracle: Oracle): (r: Option<seq<Classification>>)
    ensures r.None? <==>
      oracle(AttemptPrompt(title, body, comments, |comments|), 0).None?
      && oracle(AttemptPrompt(title, body, comments, 0), 1).None?
    ensures r.Some? ==>
      r == oracle(AttemptPrompt(title, body, comments, |comments|), 0)
      || r == oracle(AttemptPrompt(title, body, comments, 0), 1)
  {
    var first := AttemptPrompt(title, body, comments, |comments|);
    if oracle(first, 0).Some? then oracle(first, 0) else oracle(AttemptPrompt(title, body, comments, 0), 1)
  }

  /** `analyze_content`: the attempt counts `[len(comments), 0]` in turn, returning the first
      parsed answer; `prompts` records every prompt sent. */
  method AnalyzeContent(title: string, body: string, comments: seq<string>, oracle: Oracle)
    returns (r: Option<seq<Classification>>, prompts: seq<string>)
    ensures r == Analyze(title, body, comments, oracle)
    ensures prompts == AnalyzePrompts(title, body, comments, oracle)
  {
    var prompt := PromptWithContent(title, body);
    var counts := [|comments|, 0];
    ghost var first := AttemptPrompt(title, body, comments, |comments|);
    ghost var second := AttemptPrompt(title, body, comments, 0);
    prompts := [];
    var k := 0;
    while k < |counts|
      invariant 0 <= k <= |counts|
      invariant k == 0 ==> prompts == []
      invariant k == 1 ==> prompts == [first] && oracle(first, 0).None?
      invariant k == 2 ==> prompts == [first, second] && oracle(first, 0).None? && oracle(second, 1).None?
    {
      var insertPrompt := Replace(prompt, COMMENTS_SLOT, Join(comments[..counts[k]], "\n"));
      assert insertPrompt == (if k == 0 then first else second);
      prompts := prompts + [insertPrompt];
      var result := oracle(insertPrompt, k);
      if result.Some? {
        r := result;
        return;
      }
      k := k + 1;
    }
    r := None;
  }

  /** At most two attempts; the first sends every comment and the second none; the answer is
      the first one that parses, and `None` exactly when both attempts fail. */
  lemma AnalyzeSpec(title: string, body: string, comments: seq<string>, oracle: Oracle)
    ensures var ps := AnalyzePrompts(title, body, comments, oracle);
      && 1 <= |ps| <= 2
      && ps[0] == InsertPrompt(title, body, Join(comments, "\n"))
      && (|ps| == 2 ==> ps[1] == InsertPrompt(title, body, "") && oracle(ps[0], 0).None?)
      && (Analyze(title, body, comments, oracle).None? <==> |ps| == 2 && oracle(ps[1], 1).None?)
      && (Analyze(title, body, comments, oracle).Some? ==> Analyze(title, body, comments, oracle) == oracle(ps[|ps| - 1], |ps| - 1))
  {
    assert comments[..|comments|] == comments;
    assert comments[..0] == [];
  }

  /** With no comments the retry sends the very prompt that failed a second time, and its
      answer is the outcome when the first attempt fails. */
  lemma NoCommentsSamePrompt(title: string, body: string, comments: seq<string>, oracle: Oracle)
    requires |comments| == 0
    ensures var p := InsertPrompt(title, body, "");
      && AnalyzePrompts(title, body, comments, oracle) == (if oracle(p, 0).Some? then [p] else [p, p])
      && (oracle(p, 0).None? ==> Analyze(title, body, comments, oracle) == oracle(p, 1))
  {
    assert comments[..0] == [];
    assert comments[..|comments|] == [];
  }

  // ---------------------------------------------------------------------------
  // The classification loop
  // ---------------------------------------------------------------------------

  function CommentBodies(cs: seq<TaxComment>): (bodies: seq<string>)
    ensures |bodies| == |cs| && forall i :: 0 <= i < |cs| ==> bodies[i] == cs[i].body
  {
    seq(|cs|, i requires 0 <= i < |cs| => cs[i].body)
  }

  /** What `analyze_content` returns for an issue, an absent title or body sent as "". */
  function AnalyzeIssue(issue: TaxIssue, oracle: Oracle): Option<seq<Classification>> {
    Analyze(OrEmpty(issue.title), OrEmpty(issue.body), CommentBodies(issue.comments), oracle)
  }

  /** The loop builds its `Unknown`/0.0/"No content to analyze" fallback for an unclassified
      issue with neither title nor body, before any prompt, and again for one whose two attempts
      both fail. It passes `confidence` and `explanation` by their field names, while the class
      declares them under the aliases `api_taxonomy_class_confidence` and
      `api_taxonomy_class_explanation` and does not populate by name, so validation finds the
      aliased fields missing and raises: the visit, and the script, end there. */
  predicate Raises(issue: TaxIssue, oracle: Oracle) {
    && issue.apiTaxonomyClass.None?
    && ((issue.title.None? && issue.body.None?) || AnalyzeIssue(issue, oracle).None?)
  }

  /** An issue after the loop has visited it: a classified issue is kept; an issue whose visit
      raises is left as it was, since the raise comes before the assignment; any other issue
      gets the oracle's list. */
  function ClassifyOne(issue: TaxIssue, oracle: Oracle): (after: TaxIssue)
    ensures after.number == issue.number && after.title == issue.title
    ensures after.body == issue.body && after.comments == issue.comments
    ensures after.apiTaxonomyClass.Some? <==> !Raises(issue, oracle)
    ensures issue.apiTaxonomyClass.Some? ==> after == issue
  {
    if issue.apiTaxonomyClass.Some? || Raises(issue, oracle) then issue
    else issue.(apiTaxonomyClass := Some(Listed(AnalyzeIssue(issue, oracle).value)))
  }

  /** The prompts the loop sends for one issue: none for a classified issue or for one with
      neither title nor body. */
  function PromptsOne(issue: TaxIssue, oracle: Oracle): seq<string> {
    if issue.apiTaxonomyClass.Some? || (issue.title.None? && issue.body.None?) then []
    else AnalyzePrompts(OrEmpty(issue.title), OrEmpty(issue.body), CommentBodies(issue.comments), oracle)
  }

  function ClassifyEach(issues: seq<TaxIssue>, oracle: Oracle): seq<TaxIssue> {
    seq(|issues|, i requires 0 <= i < |issues| => ClassifyOne(issues[i], oracle))
  }

  /** The issues once the first `n` have been visited. */
  function ClassifyUpTo(issues: seq<TaxIssue>, n: nat, oracle: Oracle): seq<TaxIssue>
    requires n <= |issues|
  {
    seq(|issues|, i requires 0 <= i < |issues| => if i < n then ClassifyOne(issues[i], oracle) else issues[i])
  }

  /** The prompts the loop sends for the first `n` issues, in order. */
  function PromptsOf(issues: seq<TaxIssue>, n: nat, oracle: Oracle): seq<string>
    requires n <= |issues|
    decreases n
  {
    if n == 0 then [] else PromptsOf(issues, n - 1, oracle) + PromptsOne(issues[n - 1], oracle)
  }

  /** The position of the first issue from `from` on whose visit raises, or the issue count
      when none does. */
  function FirstRaiseFrom(issues: seq<TaxIssue>, oracle: Oracle, from: nat): (s: nat)
    requires from <= |issues|
    ensures from <= s <= |issues|
    ensures forall k :: from <= k < s ==> !Raises(issues[k], oracle)
    ensures s < |issues| ==> Raises(issues[s], oracle)
    decreases |issues| - from
  {
    if from == |issues| then from
    else if Raises(issues[from], oracle) then from
    else FirstRaiseFrom(issues, oracle, from + 1)
  }

  /** Where the loop stops: the first issue whose visit raises, or the end. */
  function FirstRaise(issues: seq<TaxIssue>, oracle: Oracle): (s: nat)
    ensures s <= |issues|
  {
    FirstRaiseFrom(issues, oracle, 0)
  }

  /** The number of issues the loop visits: up to and including the one that raises. */
  function Visited(issues: seq<TaxIssue>, oracle: Oracle): (n: nat)
    ensures n <= |issues|
  {
    var s := FirstRaise(issues, oracle);
    if s < |issues| then s + 1 else s
  }

  /** The loop over the loaded issues, updating each in place. An issue that already has a
      class is skipped; an absent title or body is sent as the empty string; the first visit
      that builds the fallback raises and ends the loop, with the issues before it classified
      and the rest as they were. */
  method ClassifyAll(issues: array<TaxIssue>, oracle: Oracle) returns (prompts: seq<string>, completed: bool)
    modifies issues
    ensures completed <==> FirstRaise(old(issues[..]), oracle) == issues.Length
    ensures issues[..] == ClassifyUpTo(old(issues[..]), FirstRaise(old(issues[..]), oracle), oracle)
    ensures prompts == PromptsOf(old(issues[..]), Visited(old(issues[..]), oracle), oracle)
  {
    ghost var start := issues[..];
    prompts := [];
    var num := 0;
    while num < issues.Length
      invariant 0 <= num <= issues.Length
      invariant num <= FirstRaise(start, oracle)
      invariant issues[..] == ClassifyUpTo(start, num, oracle)
      invariant prompts == PromptsOf(start, num, oracle)
    {
      assert issues[num] == start[num];
      StopAt(start, oracle, num);
      var calls, raised := VisitIssue(issues, num, oracle);
      prompts := prompts + calls;
      if raised {
        assert issues[..] == ClassifyUpTo(start, num, oracle);
        return prompts, false;
      }
      ClassifyUpToStep(start, num, oracle);
      num := num + 1;
    }
    assert FirstRaise(start, oracle) == num == Visited(start, oracle);
    completed := true;
  }

  /** Classifying issue `n` in place extends the classified prefix by one. */
  lemma ClassifyUpToStep(issues: seq<TaxIssue>, n: nat, oracle: Oracle)
    requires n < |issues|
    ensures ClassifyUpTo(issues, n, oracle)[n := ClassifyOne(issues[n], oracle)] == ClassifyUpTo(issues, n + 1, oracle)
  {
  }

  /** Visiting issue `num`, which the loop reaches, either is the raise or lets the loop go on. */
  lemma StopAt(issues: seq<TaxIssue>, oracle: Oracle, num: nat)
    requires num < |issues| && num <= FirstRaise(issues, oracle)
    ensures Raises(issues[num], oracle) ==>
      FirstRaise(issues, oracle) == num && Visited(issues, oracle) == num + 1 &&
      ClassifyOne(issues[num], oracle) == issues[num]
    ensures !Raises(issues[num], oracle) ==> num + 1 <= FirstRaise(issues, oracle)
    ensures PromptsOf(issues, num + 1, oracle) == PromptsOf(issues, num, oracle) + PromptsOne(issues[num], oracle)
  {
  }

  /** The loop body for one issue, updating it in place: an issue that already has a class
      is skipped; `raised` reports that building the fallback raised. */
  method VisitIssue(issues: array<TaxIssue>, num: nat, oracle: Oracle) returns (calls: seq<string>, raised: bool)
    requires num < issues.Length
    modifies issues
    ensures raised == Raises(old(issues[num]), oracle)
    ensures issues[num] == ClassifyOne(old(issues[num]), oracle)
    ensures forall k :: 0 <= k < issues.Length && k != num ==> issues[k] == old(issues[k])
    ensures issues[..] == old(issues[..])[num := ClassifyOne(old(issues[num]), oracle)]
    ensures calls == PromptsOne(old(issues[num]), oracle)
  {
    if issues[num].apiTaxonomyClass.Some? {
      return [], false;
    }
    var issue := issues[num];
    var body := issue.body;
    var title := issue.title;
    var comments := CommentBodies(issue.comments);
    if body.None? && title.None? {
      // the fallback is built here, before any prompt, and raises
      return [], true;
    }
    var bodyText := if body.None? then "" else body.value;
    var titleText := if title.None? then "" else title.value;
    var classes;
    classes, calls := AnalyzeContent(titleText, bodyText, comments, oracle);
    if classes.None? {
      // the fallback is built again after both attempts failed, and raises
      return calls, true;
    }
    issues[num] := issue.(apiTaxonomyClass := Some(Listed(classes.value)));
    raised := false;
  }

  /** What the loop does to one issue: a classified issue is left as it is and costs no oracle
      call; an unclassified issue with neither title nor body raises before any call; any other
      costs one or two calls, raises exactly when both fail, and otherwise ends with the
      oracle's list. */
  lemma ClassifyOneSpec(issue: TaxIssue, oracle: Oracle)
    ensures var after := ClassifyOne(issue, oracle);
      && (issue.apiTaxonomyClass.Some? ==> after == issue && !Raises(issue, oracle) && PromptsOne(issue, oracle) == [])
      && (issue.apiTaxonomyClass.None? && issue.title.None? && issue.body.None? ==>
            Raises(issue, oracle) && after == issue && PromptsOne(issue, oracle) == [])
      && (issue.apiTaxonomyClass.None? && (issue.title.Some? || issue.body.Some?) ==>
            && 1 <= |PromptsOne(issue, oracle)| <= 2
            && (Raises(issue, oracle) <==> AnalyzeIssue(issue, oracle).None?)
            && (!Raises(issue, oracle) ==> after.apiTaxonomyClass == Some(Listed(AnalyzeIssue(issue, oracle).value))))
  {
    if issue.apiTaxonomyClass.None? {
      AnalyzeSpec(OrEmpty(issue.title), OrEmpty(issue.body), CommentBodies(issue.comments), oracle);
    }
  }

  /** An unclassified issue with neither title nor body raises before the oracle is asked,
      whatever the oracle would answer, and the loop stops at it. */
  lemma BothAbsentRaisesBeforeAsking(issues: seq<TaxIssue>, k: nat, oracle: Oracle)
    requires k < |issues|
    requires issues[k].apiTaxonomyClass.None? && issues[k].title.None? && issues[k].body.None?
    ensures PromptsOne(issues[k], oracle) == []
    ensures FirstRaise(issues, oracle) <= k && Visited(issues, oracle) == FirstRaise(issues, oracle) + 1
    ensures ScriptOutput(issues, oracle).None?
  {
    assert Raises(issues[k], oracle);
  }

  /** An issue whose two attempts both fail raises after the second prompt, and the loop stops
      at it. */
  lemma FailedAnalysisRaises(issues: seq<TaxIssue>, k: nat, oracle: Oracle)
    requires k < |issues|
    requires issues[k].apiTaxonomyClass.None? && (issues[k].title.Some? || issues[k].body.Some?)
    requires AnalyzeIssue(issues[k], oracle).None?
    ensures |PromptsOne(issues[k], oracle)| == 2
    ensures FirstRaise(issues, oracle) <= k && Visited(issues, oracle) == FirstRaise(issues, oracle) + 1
    ensures ScriptOutput(issues, oracle).None?
  {
    assert Raises(issues[k], oracle);
  }

  /** Whatever class strings the oracle returns are stored as they are: none is checked against
      the enumeration. With an answer on the first attempt, the stored class is that answer. */
  lemma LabelsAreNotValidated(issue: TaxIssue, oracle: Oracle, answer: seq<Classification>)
    requires issue.apiTaxonomyClass.None? && (issue.title.Some? || issue.body.Some?)
    requires oracle(InsertPrompt(OrEmpty(issue.title), OrEmpty(issue.body),
                                 Join(CommentBodies(issue.comments), "\n")), 0) == Some(answer)
    ensures ClassifyOne(issue, oracle).apiTaxonomyClass == Some(Listed(answer))
  {
    var cs := CommentBodies(issue.comments);
    assert cs[..|cs|] == cs;
  }

  /** After the loop every visited issue before the stop has a class, the issues keep their
      order and other fields, and when the loop completes every issue has a class. */
  lemma PassClassifiesEveryIssue(issues: seq<TaxIssue>, oracle: Oracle)
    ensures var s := FirstRaise(issues, oracle);
      && |ClassifyUpTo(issues, s, oracle)| == |issues|
      && (forall i :: 0 <= i < |issues| ==>
            && ClassifyUpTo(issues, s, oracle)[i].number == issues[i].number
            && ClassifyUpTo(issues, s, oracle)[i].title == issues[i].title
            && ClassifyUpTo(issues, s, oracle)[i].body == issues[i].body
            && ClassifyUpTo(issues, s, oracle)[i].comments == issues[i].comments)
      && (forall i :: 0 <= i < s ==> ClassifyUpTo(issues, s, oracle)[i].apiTaxonomyClass.Some?)
      && (s == |issues| ==> ClassifyUpTo(issues, s, oracle) == ClassifyEach(issues, oracle))
  {
  }

  /** With every issue classified the loop sends nothing. */
  lemma {:induction false} NothingToAsk(issues: seq<TaxIssue>, n: nat, oracle: Oracle)
    requires n <= |issues|
    requires forall i :: 0 <= i < n ==> issues[i].apiTaxonomyClass.Some?
    ensures PromptsOf(issues, n, oracle) == []
    decreases n
  {
    if n > 0 {
      NothingToAsk(issues, n - 1, oracle);
    }
  }

  /** Re-running on the output of a completed loop, with any oracle, changes nothing, calls the
      oracle never and completes too. */
  lemma RerunIsIdempotent(issues: seq<TaxIssue>, oracle: Oracle, later: Oracle)
    requires FirstRaise(issues, oracle) == |issues|
    ensures ClassifyEach(ClassifyEach(issues, oracle), later) == ClassifyEach(issues, oracle)
    ensures PromptsOf(ClassifyEach(issues, oracle), |issues|, later) == []
    ensures FirstRaise(ClassifyEach(issues, oracle), later) == |issues|
  {
    var done := ClassifyEach(issues, oracle);
    assert forall i :: 0 <= i < |issues| ==> done[i].apiTaxonomyClass.Some?;
    NothingToAsk(done, |issues|, later);
    NoneRaiseWhenClassified(done, later, 0);
  }

  lemma {:induction false} NoneRaiseWhenClassified(issues: seq<TaxIssue>, oracle: Oracle, from: nat)
    requires from <= |issues|
    requires forall i :: 0 <= i < |issues| ==> issues[i].apiTaxonomyClass.Some?
    ensures FirstRaiseFrom(issues, oracle, from) == |issues|
    decreases |issues| - from
  {
    if from < |issues| {
      NoneRaiseWhenClassified(issues, oracle, from + 1);
    }
  }

  // ---------------------------------------------------------------------------
  // The saved document
  // ---------------------------------------------------------------------------

  datatype SavedIssue = SavedIssue(
    number: int,
    title: Option<string>,
    body: Option<string>,
    comments: seq<TaxComment>,
    apiTaxonomyClass: TaxonomyClass)

  /** One issue as written: its fields, and its class or the fixed `Unknown`/0.9 entry when it
      has none. */
  function SavedEntry(issue: TaxIssue): (e: SavedIssue)
    ensures e.number == issue.number && e.title == issue.title
    ensures e.body == issue.body && e.comments == issue.comments
    ensures issue.apiTaxonomyClass.Some? ==> e.apiTaxonomyClass == issue.apiTaxonomyClass.value
    ensures issue.apiTaxonomyClass.None? ==> e.apiTaxonomyClass == SAVE_FALLBACK
  {
    SavedIssue(issue.number, issue.title, issue.body, issue.comments,
               if issue.apiTaxonomyClass.Some? then issue.apiTaxonomyClass.value else SAVE_FALLBACK)
  }

  function SavedDocument(issues: seq<TaxIssue>): seq<SavedIssue> {
    seq(|issues|, i requires 0 <= i < |issues| => SavedEntry(issues[i]))
  }

  /** The save block: one entry appended per issue. */
  method SaveResults(issues: seq<TaxIssue>) returns (res: seq<SavedIssue>)
    ensures res == SavedDocument(issues)
  {
    res := [];
    var i := 0;
    while i < |issues|
      invariant 0 <= i <= |issues|
      invariant res == SavedDocument(issues[..i])
    {
      assert issues[..i + 1] == issues[..i] + [issues[i]];
      res := res + [SavedEntry(issues[i])];
      i := i + 1;
    }
    assert issues[..|issues|] == issues;
  }

  /** One entry per issue, in load order, keeping each issue's fields; the fixed `Unknown`
      entry is written exactly for the issues without a class. */
  lemma SavedDocumentSpec(issues: seq<TaxIssue>)
    ensures |SavedDocument(issues)| == |issues|
    ensures forall i :: 0 <= i < |issues| ==>
      && SavedDocument(issues)[i].number == issues[i].number
      && SavedDocument(issues)[i].title == issues[i].title
      && SavedDocument(issues)[i].body == issues[i].body
      && SavedDocument(issues)[i].comments == issues[i].comments
      && (issues[i].apiTaxonomyClass.Some? ==> SavedDocument(issues)[i].apiTaxonomyClass == issues[i].apiTaxonomyClass.value)
      && (issues[i].apiTaxonomyClass.None? ==> SavedDocument(issues)[i].apiTaxonomyClass == SAVE_FALLBACK)
  {
  }

  /** What the script writes: the saved document of the classified issues when the loop
      completes, and nothing when a visit raised, since the output file is opened only after
      the loop. */
  function ScriptOutput(issues: seq<TaxIssue>, oracle: Oracle): (out: Option<seq<SavedIssue>>)
    ensures out.Some? <==> forall k :: 0 <= k < |issues| ==> !Raises(issues[k], oracle)
  {
    if FirstRaise(issues, oracle) == |issues| then Some(SavedDocument(ClassifyEach(issues, oracle))) else None
  }

  /** The script after loading: the loop over the issues, then the save block when the loop
      did not raise. */
  method ClassifyAndSave(issues: array<TaxIssue>, oracle: Oracle) returns (written: Option<seq<SavedIssue>>, prompts: seq<string>)
    modifies issues
    ensures written == ScriptOutput(old(issues[..]), oracle)
    ensures prompts == PromptsOf(old(issues[..]), Visited(old(issues[..]), oracle), oracle)
  {
    ghost var start := issues[..];
    var completed;
    prompts, completed := ClassifyAll(issues, oracle);
    if completed {
      PassClassifiesEveryIssue(start, oracle);
      var res := SaveResults(issues[..]);
      written := Some(res);
    } else {
      written := None;
    }
  }

  /** When the script writes, the save-time fallback is never used: each entry carries the
      class the loop assigned. */
  lemma FallbackUnreachableAfterPass(issues: seq<TaxIssue>, oracle: Oracle)
    ensures ScriptOutput(issues, oracle).Some? ==>
      && |ScriptOutput(issues, oracle).value| == |issues|
      && forall i :: 0 <= i < |issues| ==>
           && ClassifyEach(issues, oracle)[i].apiTaxonomyClass.Some?
           && ScriptOutput(issues, oracle).value[i].apiTaxonomyClass == ClassifyEach(issues, oracle)[i].apiTaxonomyClass.value
  {
  }
}
