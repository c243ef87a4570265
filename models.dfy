/**
 * The records and enumerations of the ClinicVault schema (app/models.py).
 * Column defaults that come from the clock (`created_at`, `timestamp`) are
 * not modelled; ids are assigned by the store (see module Store).
 */
module Models {
  import opened Wrappers

  datatype UserRole = Patient | Doctor | Admin

  datatype DoctorStatus = Offline | Online | Busy

  datatype ConsultationStatus = PendingPayment | Active | Completed | Cancelled

  /** The string value of a role, as `UserRole.value` gives it. */
  function RoleValue(role: UserRole): string
  {
    match role
    case Patient => "patient"
    case Doctor => "doctor"
    case Admin => "admin"
  }

  /** A row of the `user` table; `email` carries a unique index. */
  datatype User = User(id: nat, email: string, hashedPassword: string, fullName: string, role: UserRole)

  /** A row of `doctorprofile`; `userId` is unique and refers to a user. */
  datatype DoctorProfile = DoctorProfile(id: nat, userId: nat, specialty: string, status: DoctorStatus)

  /** A row of `patientprofile`; `userId` is unique and refers to a user. */
  datatype PatientProfile = PatientProfile(id: nat, userId: nat, medicalHistorySummary: Option<string>)

  /** A consultation; the three PHI columns hold ciphertext only. */
  datatype Consultation = Consultation(
    id: nat, patientId: nat, doctorId: nat, specialty: string, status: ConsultationStatus,
    symptomsEnc: string, notesEnc: Option<string>, transcriptEnc: Option<string>)

  /** A row of the append-only privacy audit trail. */
  datatype PrivacyLog = PrivacyLog(
    id: nat, consultationId: Option<nat>, actorId: Option<nat>,
    actorName: string, action: string, targetData: string, purpose: string)
}
