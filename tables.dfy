/** The keyword tables of the analyser, as the ordered items of its dictionary literals. The
    style table of the windowed program and of the morpheme-based script spells the seventh
    keyword of 실용형 as 알뜸; the plain script spells it 알뜰. The industry table is the same
    in all three programs. */
module Tables {
  import opened Classifier

  /** `style_keywords` of the windowed program and of the morpheme-based script. */
  const StyleTable: Table := [
    ("유머형", ["ㅋ", "ㅎ", "웃", "재미", "유머", "우습", "깔깔", "하하"]),
    ("감성형", ["마음", "사랑", "행복", "따뜻", "소중", "감동", "추억", "함께", "가족", "일상", "순간"]),
    ("정보형", ["새로운", "최초", "기술", "혁신", "특허", "개발", "성분", "효과", "과학"]),
    ("긴급형", ["지금", "오늘", "한정", "마지막", "서둘", "빨리", "곧", "즉시", "바로"]),
    ("프리미엄형", ["프리미엄", "럭셔리", "고급", "명품", "최고급", "특별", "한정판", "격"]),
    ("실용형", ["편리", "간편", "실용", "유용", "효율", "절약", "알뜸", "가성비", "쉽", "빠른"]),
    ("도전형", ["도전", "극복", "성취", "꿈", "목표", "열정", "성공", "이루", "시작", "변화"]),
    ("언어유희형", ["친구", "팀", "국룰", "케미", "통역"]),
    ("건강웰빙형", ["건강", "피로", "상처", "통증", "영양", "케어"]),
    ("라이프형", ["스타일", "삶", "생활", "디자인", "취향", "나답", "매일"]),
    ("혁신기술형", ["AI", "혁신", "미래", "성장", "발전", "진화", "스마트"])
  ]

  /** `style_keywords` of the plain script. */
  const PlainStyleTable: Table := [
    ("유머형", ["ㅋ", "ㅎ", "웃", "재미", "유머", "우습", "깔깔", "하하"]),
    ("감성형", ["마음", "사랑", "행복", "따뜻", "소중", "감동", "추억", "함께", "가족", "일상", "순간"]),
    ("정보형", ["새로운", "최초", "기술", "혁신", "특허", "개발", "성분", "효과", "과학"]),
    ("긴급형", ["지금", "오늘", "한정", "마지막", "서둘", "빨리", "곧", "즉시", "바로"]),
    ("프리미엄형", ["프리미엄", "럭셔리", "고급", "명품", "최고급", "특별", "한정판", "격"]),
    ("실용형", ["편리", "간편", "실용", "유용", "효율", "절약", "알뜰", "가성비", "쉽", "빠른"]),
    ("도전형", ["도전", "극복", "성취", "꿈", "목표", "열정", "성공", "이루", "시작", "변화"]),
    ("언어유희형", ["친구", "팀", "국룰", "케미", "통역"]),
    ("건강웰빙형", ["건강", "피로", "상처", "통증", "영양", "케어"]),
    ("라이프형", ["스타일", "삶", "생활", "디자인", "취향", "나답", "매일"]),
    ("혁신기술형", ["AI", "혁신", "미래", "성장", "발전", "진화", "스마트"])
  ]

  /** `industry_keywords`, shared by the three programs. */
  const IndustryTable: Table := [
    ("기술IT", ["AI", "기술", "혁신", "앱", "데이터", "전자", "스마트", "디지털"]),
    ("패션뷰티", ["스타일", "패션", "옷", "뷰티", "화장", "피부"]),
    ("식품음료", ["맛", "먹", "음식", "커피", "술", "음료", "식품"]),
    ("건강의료", ["건강", "의료", "치료", "약", "병원", "운동", "다이어트"]),
    ("금융서비스", ["은행", "카드", "보험", "금융", "투자", "적립"]),
    ("여행레저", ["여행", "휴가", "레저", "관광", "호텔", "항공"]),
    ("자동차", ["차", "자동차", "운전", "엔진", "주행"]),
    ("가전홈", ["가전", "집", "홈", "가구", "생활", "청소"])
  ]

  /** Each table is a dictionary literal, so its category names are distinct, and the
      classifier's preconditions hold for all three. */
  lemma TablesHaveDistinctNames()
    ensures DistinctNames(StyleTable) && |StyleTable| == 11
    ensures DistinctNames(PlainStyleTable) && |PlainStyleTable| == 11
    ensures DistinctNames(IndustryTable) && |IndustryTable| == 8
  {
    StyleNamesDistinct();
    PlainStyleNamesDistinct();
    IndustryNamesDistinct();
  }

  lemma StyleNamesDistinct()
    ensures DistinctNames(StyleTable) && |StyleTable| == 11
  {
  }

  lemma PlainStyleNamesDistinct()
    ensures DistinctNames(PlainStyleTable) && |PlainStyleTable| == 11
  {
  }

  lemma IndustryNamesDistinct()
    ensures DistinctNames(IndustryTable) && |IndustryTable| == 8
  {
  }

  /** The two style tables have the same categories in the same order and differ in exactly
      one keyword: the seventh of 실용형 (index 5). */
  lemma StyleTablesDiffer()
    ensures |StyleTable| == |PlainStyleTable|
    ensures forall i :: 0 <= i < |StyleTable| ==> StyleTable[i].0 == PlainStyleTable[i].0
    ensures forall i :: 0 <= i < |StyleTable| && i != 5 ==> StyleTable[i] == PlainStyleTable[i]
    ensures StyleTable[5].1[6] == "알뜸" && PlainStyleTable[5].1[6] == "알뜰"
    ensures StyleTable[5].1[..6] == PlainStyleTable[5].1[..6]
    ensures StyleTable[5].1[7..] == PlainStyleTable[5].1[7..]
  {
  }
}
