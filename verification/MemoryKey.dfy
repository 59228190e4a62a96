/** The text whose digest is a translation memory key. */
module MemoryKey {
  import opened Common
  import opened JsonText
  import opened Canonical
  import opened Pipeline

  function Named(name: string, text: string): Canonical.Entry { Canonical.Entry(Some(name), VStr(text)) }

  function ProviderPayload(key: Key): Value {
    VMap([Named("name", key.provider), Named("model_version", key.modelVersion)])
  }

  function KeyPayload(key: Key): Value {
    VMap([Named("source_language", key.sourceLanguage), Named("target_language", key.targetLanguage),
          Named("normalized_segment_hash", key.segmentHash), Canonical.Entry(Some("provider"), ProviderPayload(key)),
          Named("glossary_version", key.glossaryVersion)])
  }

  /** Normalization leaves the payload's own names as they are. */
  predicate FixesNames(nfc: Nfc) {
    && nfc("source_language") == "source_language" && nfc("target_language") == "target_language"
    && nfc("normalized_segment_hash") == "normalized_segment_hash" && nfc("provider") == "provider"
    && nfc("glossary_version") == "glossary_version" && nfc("name") == "name" && nfc("model_version") == "model_version"
  }

  /** All components as they are after normalization. */
  function Normalized(nfc: Nfc, key: Key): Key {
    Key(nfc(key.sourceLanguage), nfc(key.targetLanguage), nfc(key.segmentHash), nfc(key.provider), nfc(key.modelVersion),
        nfc(key.glossaryVersion))
  }

  function ProviderFields(key: Key): map<string, Json> {
    map["name" := JStr(key.provider), "model_version" := JStr(key.modelVersion)]
  }

  function PayloadFields(key: Key): map<string, Json> {
    map["source_language" := JStr(key.sourceLanguage), "target_language" := JStr(key.targetLanguage),
        "normalized_segment_hash" := JStr(key.segmentHash), "provider" := JObj(ProviderFields(key)),
        "glossary_version" := JStr(key.glossaryVersion)]
  }

  lemma ProviderTree(nfc: Nfc, key: Key)
    requires FixesNames(nfc)
    ensures ToTree(nfc, ProviderPayload(key)) == Ok(JObj(ProviderFields(Normalized(nfc, key))))
  {
    var v := ProviderPayload(key);
    assert |"name"| != |"model_version"|;
    assert ToFields(nfc, v, 1) == Ok(map["name" := JStr(nfc(key.provider))]);
    assert ToFields(nfc, v, 2) == Ok(ProviderFields(Normalized(nfc, key)));
  }

  lemma KeyPayloadTree(nfc: Nfc, key: Key)
    requires FixesNames(nfc)
    ensures ToTree(nfc, KeyPayload(key)) == Ok(JObj(PayloadFields(Normalized(nfc, key))))
  {
    var v := KeyPayload(key);
    var source, target := JStr(nfc(key.sourceLanguage)), JStr(nfc(key.targetLanguage));
    assert "source_language"[0] != "target_language"[0];
    assert ToFields(nfc, v, 1) == Ok(map["source_language" := source]);
    assert ToFields(nfc, v, 2) == Ok(map["source_language" := source, "target_language" := target]);
    ThirdField(nfc, key);
    ProviderTree(nfc, key);
    assert |"provider"| == 8 && |"glossary_version"| == 16;
    assert ToFields(nfc, v, 4).Ok?;
    assert ToFields(nfc, v, 5).Ok?;
    assert ToFields(nfc, v, 5).value == PayloadFields(Normalized(nfc, key));
  }

  lemma ThirdField(nfc: Nfc, key: Key)
    requires FixesNames(nfc)
    requires ToFields(nfc, KeyPayload(key), 2)
          == Ok(map["source_language" := JStr(nfc(key.sourceLanguage)), "target_language" := JStr(nfc(key.targetLanguage))])
    ensures ToFields(nfc, KeyPayload(key), 3)
         == Ok(map["source_language" := JStr(nfc(key.sourceLanguage)), "target_language" := JStr(nfc(key.targetLanguage)),
                   "normalized_segment_hash" := JStr(nfc(key.segmentHash))])
  {
    assert |"normalized_segment_hash"| == 23 && |"source_language"| == 15 && |"target_language"| == 15;
  }

  /** Every key has a payload text, and two keys share one exactly when they agree, after normalization,
      in all their components: no component can spill into another. */
  lemma KeyTextIsInjective(nfc: Nfc, a: Key, b: Key)
    requires FixesNames(nfc)
    ensures CanonicalText(nfc, KeyPayload(a)).Ok?
    ensures CanonicalText(nfc, KeyPayload(a)) == CanonicalText(nfc, KeyPayload(b)) <==> Normalized(nfc, a) == Normalized(nfc, b)
  {
    KeyPayloadTree(nfc, a);
    KeyPayloadTree(nfc, b);
    if CanonicalText(nfc, KeyPayload(a)) == CanonicalText(nfc, KeyPayload(b)) {
      CanonicalTextIsInjective(nfc, KeyPayload(a), KeyPayload(b));
      FieldsTellKeys(Normalized(nfc, a), Normalized(nfc, b));
    }
  }

  lemma FieldsTellKeys(a: Key, b: Key)
    requires PayloadFields(a) == PayloadFields(b)
    ensures a == b
  {
    assert PayloadFields(a)["source_language"] == PayloadFields(b)["source_language"];
    assert PayloadFields(a)["target_language"] == PayloadFields(b)["target_language"];
    assert PayloadFields(a)["normalized_segment_hash"] == PayloadFields(b)["normalized_segment_hash"];
    assert PayloadFields(a)["glossary_version"] == PayloadFields(b)["glossary_version"];
    assert PayloadFields(a)["provider"] == PayloadFields(b)["provider"];
    assert ProviderFields(a) == ProviderFields(b);
    assert ProviderFields(a)["name"] == ProviderFields(b)["name"];
    assert ProviderFields(a)["model_version"] == ProviderFields(b)["model_version"];
  }
}
