/** The constant tables of the glossary builder: the symptom pools per
    scenario (Korean canonical term with English, Chinese and Japanese
    equivalents), the curated alias lists, the Korean and English rewrite
    rules and the Chinese and Japanese alias tables. Order is the source's
    dictionary and list order. */
module SymptomData {
  import opened Wrappers

  /** One symptom: its canonical term in each of the four languages. */
  datatype Symptom = Symptom(ko: string, en: string, zh: string, ja: string)

  /** A named group of symptoms, iterated in order. */
  datatype Scenario = Scenario(name: string, items: seq<Symptom>)

  /** Hand-written aliases for one Korean canonical term, per language. */
  datatype Curated = Curated(ko: seq<string>, en: seq<string>, zh: seq<string>, ja: seq<string>)

  /** A rewrite rule: a literal pattern and the texts substituted for it. */
  datatype Rule = Rule(pattern: string, replacements: seq<string>)

  /** A dictionary with string keys, as its (key, value) pairs in order. */
  type Table<V> = seq<(string, V)>

  /** `d.get(key)`: the value stored under `key`, if any. */
  function Find<V>(t: Table<V>, key: string): (r: Option<V>)
    ensures r.Some? <==> exists i :: 0 <= i < |t| && t[i].0 == key
    ensures r.Some? ==> exists i :: 0 <= i < |t| && t[i] == (key, r.value)
  {
    if t == [] then None
    else if t[0].0 == key then Some(t[0].1)
    else
      var r := Find(t[1..], key);
      assert forall i :: 0 < i < |t| ==> t[1..][i - 1] == t[i];
      r
  }

  /** `SYMPTOM_SCENARIOS` (backend/ai/build_symptom.py lines 8-148). */
  const SymptomScenarios: seq<Scenario> := [
    Scenario("respiratory", [
      Symptom("기침", "cough", "咳嗽", "咳"),
      Symptom("마른기침", "dry cough", "干咳", "乾いた咳"),
      Symptom("가래", "sputum", "痰", "痰"),
      Symptom("피 섞인 가래", "blood-tinged sputum", "痰中带血", "血痰"),
      Symptom("인후통", "sore throat", "咽喉痛", "喉の痛み"),
      Symptom("호흡곤란", "shortness of breath", "呼吸困难", "呼吸困難"),
      Symptom("숨참", "breathlessness", "气短", "息切れ"),
      Symptom("쌕쌕거림", "wheezing", "喘鸣", "喘鳴"),
      Symptom("흉부 답답함", "chest tightness", "胸闷", "胸の圧迫感"),
      Symptom("콧물", "runny nose", "流鼻涕", "鼻水"),
      Symptom("코막힘", "nasal congestion", "鼻塞", "鼻づまり"),
      Symptom("재채기", "sneezing", "打喷嚏", "くしゃみ"),
      Symptom("목쉼", "hoarseness", "声音嘶哑", "声がかれる"),
      Symptom("가슴 통증(기침 시)", "chest pain when coughing", "咳嗽时胸痛", "咳で胸が痛い"),
      Symptom("숨 쌕쌕", "wheezy breathing", "喘息样喘鸣", "ゼーゼーする")
    ]),
    Scenario("gastrointestinal", [
      Symptom("복통", "abdominal pain", "腹痛", "腹痛"),
      Symptom("속쓰림", "heartburn", "烧心", "胸やけ"),
      Symptom("구토", "vomiting", "呕吐", "嘔吐"),
      Symptom("메스꺼움", "nausea", "恶心", "吐き気"),
      Symptom("설사", "diarrhea", "腹泻", "下痢"),
      Symptom("변비", "constipation", "便秘", "便秘"),
      Symptom("복부 팽만", "abdominal bloating", "腹胀", "腹部膨満"),
      Symptom("식욕부진", "loss of appetite", "食欲不振", "食欲不振"),
      Symptom("삼킴 곤란", "difficulty swallowing", "吞咽困难", "嚥下困難"),
      Symptom("혈변", "bloody stool", "便血", "血便"),
      Symptom("검은변", "black stool", "黑便", "黒色便"),
      Symptom("설사(물설사)", "watery diarrhea", "水样腹泻", "水様便"),
      Symptom("복부 경련", "abdominal cramps", "腹部痉挛", "腹部けいれん"),
      Symptom("트림", "belching", "打嗝", "げっぷ"),
      Symptom("가스참", "gas/bloating", "胀气", "ガスがたまる")
    ]),
    Scenario("neurological", [
      Symptom("두통", "headache", "头痛", "頭痛"),
      Symptom("어지럼", "dizziness", "头晕", "めまい"),
      Symptom("현기증", "lightheadedness", "眩晕", "ふらつき"),
      Symptom("감각 저하", "numbness", "麻木", "しびれ"),
      Symptom("저림", "tingling", "刺痛感", "ピリピリする"),
      Symptom("경련", "seizure", "抽搐", "けいれん"),
      Symptom("혼동", "confusion", "意识混乱", "混乱"),
      Symptom("말 어눌함", "slurred speech", "言语含糊", "ろれつが回らない"),
      Symptom("시야 흐림", "blurred vision", "视力模糊", "視界がぼやける"),
      Symptom("기억력 저하", "memory loss", "记忆力下降", "記憶力低下"),
      Symptom("균형감각 저하", "loss of balance", "平衡感差", "ふらつく"),
      Symptom("손발 힘 빠짐", "weakness in limbs", "四肢无力", "手足に力が入らない"),
      Symptom("감각 이상", "sensory changes", "感觉异常", "感覚異常"),
      Symptom("빛에 민감", "sensitivity to light", "畏光", "光に敏感"),
      Symptom("소리에 민감", "sensitivity to sound", "对声音敏感", "音に敏感")
    ]),
    Scenario("chest_emergency", [
      Symptom("흉통", "chest pain", "胸痛", "胸痛"),
      Symptom("가슴 압박감", "chest pressure", "胸部压迫感", "胸の圧迫感"),
      Symptom("심계항진", "palpitations", "心悸", "動悸"),
      Symptom("호흡 시 통증", "pain on breathing", "呼吸时疼痛", "呼吸時の痛み"),
      Symptom("식은땀", "cold sweat", "冷汗", "冷や汗"),
      Symptom("청색증", "cyanosis", "发绀", "チアノーゼ"),
      Symptom("실신", "syncope", "晕厥", "失神"),
      Symptom("가슴 두근거림", "heart pounding", "心跳很快", "心臓がドキドキする"),
      Symptom("극심한 흉부 통증", "severe chest pain", "剧烈胸痛", "激しい胸痛"),
      Symptom("숨이 막힘", "feeling unable to breathe", "喘不过气", "息ができない"),
      Symptom("턱/왼팔로 퍼지는 통증", "radiating pain to jaw/left arm", "放射痛至下颌/左臂", "顎や左腕への放散痛"),
      Symptom("갑작스러운 호흡곤란", "sudden shortness of breath", "突发呼吸困难", "突然の呼吸困難"),
      Symptom("가슴이 쥐어짜는 느낌", "squeezing chest sensation", "胸口被挤压感", "締めつけられる感じ"),
      Symptom("심한 불안", "severe anxiety", "强烈不安", "強い不安"),
      Symptom("극심한 무기력", "extreme weakness", "极度无力", "極度の脱力")
    ]),
    Scenario("skin_allergy", [
      Symptom("발진", "rash", "皮疹", "発疹"),
      Symptom("가려움", "itching", "瘙痒", "かゆみ"),
      Symptom("두드러기", "hives", "荨麻疹", "蕁麻疹"),
      Symptom("부종", "swelling", "肿胀", "腫れ"),
      Symptom("홍반", "erythema", "红斑", "紅斑"),
      Symptom("피부 벗겨짐", "skin peeling", "脱皮", "皮むけ"),
      Symptom("물집", "blister", "水疱", "水疱"),
      Symptom("피부 통증", "skin pain", "皮肤疼痛", "皮膚の痛み"),
      Symptom("얼굴 부기", "facial swelling", "面部肿胀", "顔の腫れ"),
      Symptom("입술 부종", "lip swelling", "嘴唇肿胀", "唇の腫れ"),
      Symptom("눈꺼풀 부종", "eyelid swelling", "眼睑肿胀", "まぶたの腫れ"),
      Symptom("따가움", "stinging sensation", "刺痛", "ヒリヒリする"),
      Symptom("피부 열감", "warmth on skin", "皮肤发热", "熱感"),
      Symptom("피부 건조", "dry skin", "皮肤干燥", "乾燥肌"),
      Symptom("붉어짐", "redness", "发红", "赤み")
    ]),
    Scenario("musculoskeletal", [
      Symptom("요통", "lower back pain", "腰痛", "腰痛"),
      Symptom("관절통", "joint pain", "关节痛", "関節痛"),
      Symptom("근육통", "muscle pain", "肌肉痛", "筋肉痛"),
      Symptom("경직", "stiffness", "僵硬", "こわばり"),
      Symptom("압통", "tenderness", "压痛", "圧痛"),
      Symptom("부기(관절)", "joint swelling", "关节肿胀", "関節の腫れ"),
      Symptom("운동 제한", "limited movement", "活动受限", "可動域制限"),
      Symptom("통증 악화", "worsening pain", "疼痛加重", "痛みの悪化"),
      Symptom("쥐남", "muscle cramp", "抽筋", "こむら返り"),
      Symptom("근력 약화", "muscle weakness", "肌力下降", "筋力低下"),
      Symptom("목 통증", "neck pain", "颈部疼痛", "首の痛み"),
      Symptom("어깨 통증", "shoulder pain", "肩痛", "肩の痛み"),
      Symptom("무릎 통증", "knee pain", "膝痛", "膝の痛み"),
      Symptom("손목 통증", "wrist pain", "手腕痛", "手首の痛み"),
      Symptom("발목 통증", "ankle pain", "踝关节痛", "足首の痛み")
    ]),
    Scenario("general", [
      Symptom("발열", "fever", "发热", "発熱"),
      Symptom("오한", "chills", "寒战", "悪寒"),
      Symptom("피로", "fatigue", "疲劳", "疲労"),
      Symptom("전신 쇠약", "general weakness", "全身乏力", "全身のだるさ"),
      Symptom("식은땀(야간)", "night sweats", "盗汗", "寝汗"),
      Symptom("체중 감소", "weight loss", "体重下降", "体重減少"),
      Symptom("체중 증가", "weight gain", "体重增加", "体重増加"),
      Symptom("불면", "insomnia", "失眠", "不眠"),
      Symptom("식욕 증가", "increased appetite", "食欲增加", "食欲増加"),
      Symptom("탈수감", "dehydration", "脱水", "脱水"),
      Symptom("목마름", "thirst", "口渴", "のどの渇き"),
      Symptom("통증", "pain", "疼痛", "痛み"),
      Symptom("가슴 답답함(전신)", "tightness", "闷", "圧迫感"),
      Symptom("근육 약화(전신)", "weakness", "无力", "脱力"),
      Symptom("몸살", "body aches", "全身酸痛", "体の痛み")
    ])
  ]

  /** `CURATED_ALIASES` (lines 154-279); every entry has all four languages. */
  const CuratedAliases: Table<Curated> := [
    ("호흡곤란", Curated(
      ["숨이 차요", "숨쉬기 힘들어요", "호흡이 힘들어요", "숨이 가빠요"],
      ["dyspnea", "difficulty breathing", "trouble breathing", "can\'t catch my breath"],
      ["气促", "喘不过气", "呼吸不顺", "呼吸费力"],
      ["息が苦しい", "呼吸が苦しい", "息がしづらい", "息切れ"])),
    ("숨참", Curated(
      ["숨이 차요", "숨 가빠요", "헐떡거려요"],
      ["breathlessness", "short of breath"],
      ["气短", "喘不过气"],
      ["息切れ", "息が上がる"])),
    ("쌕쌕거림", Curated(
      ["숨쉴 때 쌕쌕거려요", "숨소리가 휘파람 같아요", "쌕쌕 소리가 나요"],
      ["wheezing", "wheeze", "whistling sound when breathing"],
      ["喘鸣", "呼吸有哨音"],
      ["喘鳴", "ゼーゼーする", "ヒューヒューする"])),
    ("가래", Curated(
      ["가래가 나와요", "가래가 끓어요", "가래가 많아요"],
      ["phlegm", "mucus", "sputum"],
      ["痰", "有痰", "痰很多"],
      ["痰が出る", "痰が絡む", "痰が多い"])),
    ("인후통", Curated(
      ["목이 아파요", "목이 따가워요", "삼킬 때 목이 아파요"],
      ["throat pain", "sore throat"],
      ["喉咙痛", "咽喉痛"],
      ["喉が痛い", "のどの痛み", "飲み込むと痛い"])),
    ("복통", Curated(
      ["배가 아파요", "배가 찢어질 듯 아파요", "명치가 아파요"],
      ["stomach pain", "belly pain", "abdominal pain"],
      ["肚子疼", "胃痛", "腹部疼痛"],
      ["お腹が痛い", "胃が痛い", "腹部の痛み"])),
    ("구토", Curated(
      ["토했어요", "토가 나와요", "구역질 나고 토해요"],
      ["throwing up", "vomiting", "emesis"],
      ["吐了", "想吐", "呕吐"],
      ["吐いた", "吐きました", "嘔吐"])),
    ("메스꺼움", Curated(
      ["속이 울렁거려요", "구역질 나요", "울렁거려요"],
      ["nausea", "feeling sick", "queasy"],
      ["恶心", "反胃", "想吐"],
      ["吐き気", "ムカムカする", "気持ち悪い"])),
    ("설사", Curated(
      ["설사를 해요", "변이 묽어요", "물설사예요"],
      ["diarrhea", "loose stool", "runny stool"],
      ["腹泻", "拉肚子", "稀便"],
      ["下痢", "軟便", "便がゆるい"])),
    ("두통", Curated(
      ["머리가 아파요", "머리가 지끈거려요", "편두통 같아요"],
      ["headache", "migraine (if applicable)", "head pain"],
      ["头痛", "偏头痛", "脑袋疼"],
      ["頭が痛い", "頭痛", "偏頭痛"])),
    ("어지럼", Curated(
      ["어질어질해요", "빙글빙글 돌아요", "눈앞이 핑 돌아요"],
      ["dizziness", "feeling dizzy", "vertigo (if spinning)"],
      ["头晕", "眩晕", "天旋地转"],
      ["めまい", "ふらふらする", "くらくらする"])),
    ("말 어눌함", Curated(
      ["말이 잘 안 나와요", "말이 꼬여요", "발음이 이상해요"],
      ["slurred speech", "speech is unclear"],
      ["说话含糊", "言语不清"],
      ["ろれつが回らない", "言葉がはっきりしない"])),
    ("흉통", Curated(
      ["가슴이 아파요", "가슴 통증이 있어요", "가슴이 찌릿해요"],
      ["chest pain", "pain in the chest"],
      ["胸痛", "胸口疼", "胸部疼痛"],
      ["胸が痛い", "胸痛", "胸の痛み"])),
    ("가슴 압박감", Curated(
      ["가슴이 답답해요", "가슴이 눌리는 느낌", "가슴이 조여요"],
      ["chest pressure", "tightness in chest", "squeezing feeling in chest"],
      ["胸闷", "胸口压迫感", "胸口发紧"],
      ["胸が苦しい", "圧迫感", "締めつけられる感じ"])),
    ("심계항진", Curated(
      ["심장이 두근거려요", "심장이 빨리 뛰어요", "가슴이 두근두근해요"],
      ["palpitations", "heart racing", "heart pounding"],
      ["心悸", "心跳加快", "心跳很快"],
      ["動悸", "心臓がドキドキする", "脈が速い"])),
    ("실신", Curated(
      ["기절했어요", "의식을 잃었어요", "쓰러졌어요"],
      ["fainting", "syncope", "passed out"],
      ["晕倒", "晕厥", "失去意识"],
      ["失神", "気を失った", "倒れた"])),
    ("발진", Curated(
      ["두드러기 같아요", "피부에 뭐가 났어요", "피부가 붉어졌어요"],
      ["rash", "skin rash", "breakout"],
      ["皮疹", "起疹子", "皮肤发疹"],
      ["発疹", "湿疹みたい", "赤いぶつぶつ"])),
    ("가려움", Curated(
      ["가려워요", "간지러워요", "너무 가려워요"],
      ["itching", "itchy"],
      ["痒", "瘙痒", "很痒"],
      ["かゆい", "かゆみ", "すごくかゆい"])),
    ("두드러기", Curated(
      ["두드러기가 났어요", "붉게 올라와요", "올라왔어요"],
      ["hives", "urticaria"],
      ["荨麻疹", "风疹块"],
      ["蕁麻疹", "じんましん"]))
  ]

  /** `KO_RULES` (lines 282-292): literal patterns, applied in this order. */
  const KoRules: seq<Rule> := [
    Rule("통증", ["아픔", "아파요", "통증이 있어요"]),
    Rule("곤란", ["힘들어요", "어려워요", "잘 안돼요"]),
    Rule("부종", ["붓기", "부었어요", "부어요"]),
    Rule("발열", ["열이 나요", "열이 있어요", "고열"]),
    Rule("오한", ["추워요", "몸이 떨려요", "寒気 느낌"])
  ]

  /** `EN_RULES` (lines 294-298), in dictionary order. */
  const EnRules: seq<Rule> := [
    Rule("pain", ["ache", "soreness", "discomfort"]),
    Rule("difficulty", ["trouble", "hard time"])
  ]

  /** The `mapping` table of `default_aliases_zh` (lines 390-401). */
  const ZhAliasTable: Table<seq<string>> := [
    ("头晕", ["眩晕", "晕乎乎"]),
    ("呕吐", ["吐", "想吐"]),
    ("恶心", ["反胃", "想吐"]),
    ("腹泻", ["拉肚子", "稀便"]),
    ("胸痛", ["胸口疼", "胸部疼痛"]),
    ("胸闷", ["胸口发闷", "胸口压着"]),
    ("发热", ["发烧", "高烧"]),
    ("皮疹", ["出疹子", "起疹子"]),
    ("瘙痒", ["很痒", "发痒"]),
    ("呼吸困难", ["喘不过气", "呼吸费力", "气促"])
  ]

  /** The `mapping` table of `default_aliases_ja` (lines 409-421). */
  const JaAliasTable: Table<seq<string>> := [
    ("めまい", ["くらくらする", "ふらふらする"]),
    ("嘔吐", ["吐いた", "吐きました"]),
    ("吐き気", ["ムカムカする", "気持ち悪い"]),
    ("下痢", ["便がゆるい", "軟便"]),
    ("胸痛", ["胸が痛い", "胸の痛み"]),
    ("胸やけ", ["胸が焼ける感じ"]),
    ("発熱", ["熱がある", "高熱"]),
    ("発疹", ["赤いぶつぶつ", "湿疹みたい"]),
    ("かゆみ", ["かゆい", "すごくかゆい"]),
    ("呼吸困難", ["息が苦しい", "息がしづらい"]),
    ("動悸", ["心臓がドキドキする", "脈が速い"])
  ]

}
