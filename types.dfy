/** The records shared by the browser store, the serverless backend and the
    UI components, and the constants the store is seeded from. */
module Types {
  import opened JsValues

  /** `'ADMIN' | 'USER'`. */
  datatype Role = ADMIN | USER

  /** A registered account. Timestamps are ISO strings, kept opaque. */
  datatype User = User(
    id: string,
    email: string,
    pin: string,
    role: Role,
    enrolledCourses: seq<string>,
    pendingUnlocks: seq<string>,
    enrollmentDates: Option<map<string, string>>,
    lastActive: Option<string>)

  datatype Video = Video(id: string, title: string, url: string, duration: string)

  datatype Course = Course(
    id: string,
    title: string,
    description: string,
    instructor: string,
    thumbnail: string,
    category: string,
    price: int,
    isFree: bool,
    videos: seq<Video>,
    youtubeChannel: Option<string>)

  datatype Settings = Settings(
    paymentQrCode: Option<string>,
    upiId: string,
    contactNumber: string,
    flashNews: seq<string>,
    categories: seq<string>)

  /** The administrator credentials the browser store is seeded with. */
  const AdminEmail: string := "admin@shamanth.com"
  const AdminPin: string := "1234"

  const DemoVideoUrl: string := "https://www.w3schools.com/html/mov_bbb.mp4"

  /** The built-in catalogue the admin console resolves course titles against. */
  const MockCourses: seq<Course> := [
    Course("1", "Mastering React 18 for Professionals",
      "Deep dive into React 18 hooks, suspense, and server components.",
      "Shamanth S.",
      "https://images.unsplash.com/photo-1633356122544-f134324a6cee?auto=format&fit=crop&q=80&w=800",
      "React", 0, true,
      [Video("v1", "Introduction to React", DemoVideoUrl, "12:05"),
       Video("v2", "Functional Components", DemoVideoUrl, "18:30")],
      None),
    Course("2", "Advanced Java Spring Boot Microservices",
      "Build scalable microservices with Java Spring Boot and Kafka.",
      "Shamanth S.",
      "https://images.unsplash.com/photo-1517694712202-14dd9538aa97?auto=format&fit=crop&q=80&w=800",
      "Java", 4999, false,
      [Video("v3", "Setting up Environment", DemoVideoUrl, "15:20"),
       Video("v4", "Database Connectivity", DemoVideoUrl, "22:45")],
      None),
    Course("3", "AWS Certified Solutions Architect",
      "Get certified with this comprehensive guide to AWS services.",
      "Cloud Lead",
      "https://images.unsplash.com/photo-1451187580459-43490279c0fa?auto=format&fit=crop&q=80&w=800",
      "AWS", 9900, false,
      [Video("v5", "EC2 & VPC Fundamentals", DemoVideoUrl, "35:00")],
      None)
  ]
}
