/** The appointment record the patient dashboard reads. Only the fields the
    dashboard's logic and cards use are kept. */
module Appointments {
  import opened Platform

  /** The seven states a booking can be in; `Unset` is the `.none` case. */
  datatype AppointmentStatus = Scheduled | InProgress | Completed | Cancelled | NoShow | Rescheduled | Unset

  datatype AppointmentData = AppointmentData(
    id: string,
    doctorName: string,
    patientId: string,
    appointmentDateTime: Option<Date>,
    durationMinutes: Option<int>,
    notes: Option<string>,
    status: AppointmentStatus)
}
