/**
 * The configuration records of the signage board and the configuration it ships with.
 * All records are read-only values: the display reads them and never changes them.
 */
module Types {

  /** A named interval of the school day; `start` and `end` are meant to be 24-hour "HH:mm". */
  datatype Period = Period(id: int, name: string, start: string, end: string)

  /** Which of the two period lists governs a day. */
  datatype ScheduleType = Normal | Activity

  /** The two period lists; a whole day uses one of them. */
  datatype ScheduleDay = ScheduleDay(normal: seq<Period>, activity: seq<Period>)

  datatype NewsItem = NewsItem(id: string, text: string, isImportant: bool)

  datatype MediaKind = Image | Video

  /** A gallery item; `duration` is its dwell time in whole seconds. */
  datatype MediaItem = MediaItem(id: string, kind: MediaKind, url: string, duration: int, description: string)

  datatype StrategicGoal = StrategicGoal(id: string, text: string)

  /**
   * The whole configuration. `activityDays` holds weekday indices (0 = Sunday .. 6 = Saturday);
   * `newsSpeed`, `logoDuration` and `goalsDuration` are whole seconds.
   */
  datatype AppSettings = AppSettings(
    schoolName: string,
    schoolLogo: string,
    vision: string,
    mission: string,
    developerName: string,
    activityDays: seq<int>,
    newsSpeed: int,
    logoDuration: int,
    goalsDuration: int,
    news: seq<NewsItem>,
    media: seq<MediaItem>,
    goals: seq<StrategicGoal>,
    schedule: ScheduleDay)

  const DefaultNormal: seq<Period> := [
    Period(1, "الطابور", "07:10", "07:25"),
    Period(2, "الحصة الأولى", "07:25", "08:05"),
    Period(3, "الحصة الثانية", "08:10", "08:50"),
    Period(4, "الحصة الثالثة", "08:55", "09:35"),
    Period(5, "الحصة الرابعة", "09:40", "10:20"),
    Period(6, "الفسحة", "10:20", "10:45"),
    Period(7, "الحصة الخامسة", "10:45", "11:25"),
    Period(8, "الحصة السادسة", "11:30", "12:10"),
    Period(9, "الحصة السابعة", "12:15", "12:55"),
    Period(10, "الحصة الثامنة", "13:00", "13:40")
  ]

  const DefaultActivity: seq<Period> := [
    Period(1, "الطابور", "07:10", "07:45"),
    Period(2, "الحصة الأولى", "07:45", "08:25"),
    Period(3, "الحصة الثانية", "08:25", "09:05"),
    Period(4, "الحصة الثالثة", "09:05", "09:45"),
    Period(5, "الحصة الرابعة", "09:45", "10:25"),
    Period(6, "الفسحة", "10:25", "10:50"),
    Period(7, "الحصة الخامسة", "10:50", "11:30"),
    Period(8, "الحصة السادسة", "11:30", "12:10"),
    Period(9, "الحصة السابعة", "12:15", "12:55"),
    Period(10, "الحصة الثامنة", "13:00", "13:40")
  ]

  const DefaultMedia: seq<MediaItem> := [
    MediaItem("1", Image, "https://picsum.photos/1080/1920", 10, "نشاط الطلاب في المعمل"),
    MediaItem("2", Video, "https://www.w3schools.com/html/mov_bbb.mp4", 15, "فيديو توعوي")
  ]

  const DefaultGoals: seq<StrategicGoal> := [
    StrategicGoal("1", "الالتزام الوطني المطلق نحو الحفاظ على العهد الأمين في المسؤولية الوطنية نحو التربية الصحيحة للأبناء"),
    StrategicGoal("2", "التسامح والمساواة وتأصيل حقوق الطفل (علميا وصحيا) في المجتمع المدرسي والمحلي"),
    StrategicGoal("3", "شفافية التعامل وتحفيز حرية التعبير ومد جسور التواصل الهادف في المجتمع المدرسي"),
    StrategicGoal("4", "تحفيز بيئة التعليم والتعلم من خلال تسخير الجهود والإمكانيات للمعلمين والطلبة"),
    StrategicGoal("5", "العمل بروح الفريق الواحد وغرس ثقافة الولاء والانتماء في المجتمع المدرسي"),
    StrategicGoal("6", "الالتزام بنشر ثقافة العمل التطوعي وتأصيله في نفوس الناشئة لتعزيز قيم المواطنة الصالحة"),
    StrategicGoal("7", "ضمان وجود مؤشرات مرتفعة لحب التعلم لتكوين قناعات حقيقية بجودة أداء المؤسسة"),
    StrategicGoal("8", "ضمان مشاركة فاعلة بين المدرسة والمجتمع المحلي"),
    StrategicGoal("9", "الالتزام القيمي لكافة العاملين لتجويد الأداء التربوي"),
    StrategicGoal("10", "تعزيز الوعي الصحي لدى الطلبة وكافة العاملين بالمدرسة")
  ]

  const DefaultNews: seq<NewsItem> := [
    NewsItem("1", "أهلاً بكم في مدرستنا العامرة", false),
    NewsItem("2", "يبدأ اختبار منتصف الفصل الأسبوع القادم", true)
  ]

  const DefaultSchoolName: string := "المدرسة النموذجية"
  const DefaultSchoolLogo: string := "https://picsum.photos/200/200"
  const DefaultVision: string := "جيل ملتزما خلقيا، ومعتزا بوطنيته، ومتمكنا علميا وتكنولوجيا"
  const DefaultMission: string := "تسعى المدرسة إلى استثمار كافة الإمكانيات والكادر المبدع والمجتمع الفاعل، لتحفيز الالتزام الخلقي والسلوكي والولاء الوطني وحب التعلم لدى الطلبة وتجويد الأداء من أجل الوصول إلى رعاية شاملة وبناء عقول صاعدة بالوطن تواكب التقانة الحديثة."
  const DefaultDeveloperName: string := "أ.أسعد الذهلي"

  /** The configuration the board uses until an administrator saves another one. */
  const DefaultSettings: AppSettings := AppSettings(
    DefaultSchoolName,
    DefaultSchoolLogo,
    DefaultVision,
    DefaultMission,
    DefaultDeveloperName,
    [2],
    25,
    5,
    10,
    DefaultNews,
    DefaultMedia,
    DefaultGoals,
    ScheduleDay(DefaultNormal, DefaultActivity))
}
